/**
 The canonical spelling of a JSON number (section 6 of RFC 8259) in a declaration: a
 signed coefficient without trailing zeros and an exponent. The generator and the
 runtime each have their own copy.
 */
module DeclarationDecimals {
  import opened DecimalText
  import opened Strings
  import opened Wrappers

  // ---- JSON numbers and what they denote.

  datatype Exponent = Exponent(mark: char, sign: string, digits: string)

  datatype Number = Number(negative: bool, whole: string, fraction: string, exponent: Option<Exponent>)

  predicate WellFormed(n: Number) {
    && n.whole != "" && AllDigits(n.whole) && (n.whole[0] == '0' ==> |n.whole| == 1)
    && AllDigits(n.fraction)
    && (n.exponent.Some? ==>
          n.exponent.value.mark in "eE" && n.exponent.value.sign in ["", "+", "-"]
          && n.exponent.value.digits != "" && AllDigits(n.exponent.value.digits))
  }

  function Spell(n: Number): string {
    (if n.negative then "-" else "") + SpellMantissa(n)
    + (if n.exponent.Some? then [n.exponent.value.mark] + n.exponent.value.sign + n.exponent.value.digits else "")
  }

  function SpellMantissa(n: Number): string {
    n.whole + if n.fraction == "" then "" else "." + n.fraction
  }

  function Signed(negative: bool, n: nat): int { if negative then 0 - n else n }

  // A number denotes Coefficient(n) times ten to the Power(n).
  function Coefficient(n: Number): int
    requires WellFormed(n)
  {
    ValueSplits(n.whole, n.fraction);
    Signed(n.negative, Value(n.whole + n.fraction))
  }

  function Power(n: Number): int
    requires WellFormed(n)
  {
    Exponential(n.exponent) - |n.fraction|
  }

  function Exponential(exponent: Option<Exponent>): int
    requires exponent.Some? ==> AllDigits(exponent.value.digits)
  {
    if exponent.None? then 0 else Signed(exponent.value.sign == "-", Value(exponent.value.digits))
  }

  /** The text is a JSON number denoting c times ten to the p. */
  ghost predicate Denotes(text: string, c: int, p: int) {
    exists n :: WellFormed(n) && Spell(n) == text && Coefficient(n) == c && Power(n) == p
  }

  // c times ten to the k.
  ghost function Scaled(c: int, k: nat): int { if k == 0 then c else 10 * Scaled(c, k - 1) }

  // c times ten to the p is the rational d times ten to the q.
  ghost predicate SameRational(c: int, p: int, d: int, q: int) {
    if p <= q then c == Scaled(d, q - p) else Scaled(c, p - q) == d
  }

  // ---- The code.

  // strings.Cut at the first occurrence of one character.
  function Cut(text: string, mark: char): (string, string, bool) {
    if text == "" then ("", "", false)
    else if text[0] == mark then ("", text[1..], true)
    else var rest := Cut(text[1..], mark); ([text[0]] + rest.0, rest.1, rest.2)
  }

  function TrimZeros(text: string): (r: string)
    ensures r != "" ==> r[|r| - 1] != '0'
  {
    if text != "" && text[|text| - 1] == '0' then TrimZeros(text[..|text| - 1]) else text
  }

  // big.Int.SetString in base ten.
  function ParseInt(text: string): Option<int> {
    var digits := if text != "" && text[0] in "+-" then text[1..] else text;
    if digits != "" && AllDigits(digits) then Some(Signed(text[0] == '-', Value(digits))) else None
  }

  // big.Int.String.
  function Itoa(n: int): string { if n < 0 then "-" + Numeral(-n) else Numeral(n) }

  function Render(negative: bool, mantissa: string, power: int): string {
    var (whole, fraction, _) := Cut(mantissa, '.');
    var digits := StripZeros(whole + fraction);
    if digits == "" then "0"
    else
      var trimmed := TrimZeros(digits);
      Scientific(negative, trimmed, power - |fraction| + (|digits| - |trimmed|))
  }

  function Scientific(negative: bool, trimmed: string, power: int): string {
    (if negative then "-" else "") + trimmed + (if power != 0 then "e" + Itoa(power) else "")
  }

  // Sign, mantissa and power of a number; no power where SetString fails.
  function Read(number: string): (bool, string, Option<int>) {
    var negative := number != "" && number[0] == '-';
    var (mantissa, power) := ReadUnsigned(if negative then number[1..] else number);
    (negative, mantissa, power)
  }

  function ReadUnsigned(text: string): (string, Option<int>) {
    var (mantissa, exponent, hasExponent) := Cut(Lower(text), 'e');
    (mantissa, if hasExponent then ParseInt(exponent) else Some(0))
  }

  // The generator's form; none where it panics.
  function CanonicalDecimal(number: string): Option<string> {
    var (negative, mantissa, power) := Read(number);
    if power.None? then None else Some(Render(negative, mantissa, power.value))
  }

  // The runtime's form; a failed SetString leaves an undefined power behind.
  function DeclarationDecimal(number: string, undefined: int): string {
    var (negative, mantissa, power) := Read(number);
    Render(negative, mantissa, if power.None? then undefined else power.value)
  }

  // ---- Reading a well-formed number back.

  lemma {:induction false} CutAtMark(a: string, mark: char, b: string)
    requires mark !in a
    ensures Cut(a + [mark] + b, mark) == (a, b, true)
  {
    var text := a + [mark] + b;
    if a == "" {
      assert text[1..] == b;
    } else {
      CutAtMark(a[1..], mark, b);
      assert text[1..] == a[1..] + [mark] + b;
      assert a == [a[0]] + a[1..];
    }
  }

  lemma {:induction false} CutWithout(a: string, mark: char)
    requires mark !in a
    ensures Cut(a, mark) == (a, "", false)
  {
    if a != "" {
      CutWithout(a[1..], mark);
      assert a == [a[0]] + a[1..];
    }
  }

  lemma ParseIntReads(e: Exponent)
    requires e.sign in ["", "+", "-"] && e.digits != "" && AllDigits(e.digits)
    ensures ParseInt(e.sign + e.digits) == Some(Signed(e.sign == "-", Value(e.digits)))
  {
    var text := e.sign + e.digits;
    if e.sign == "" { assert text == e.digits; } else { assert text[1..] == e.digits; }
  }

  function Tail(e: Option<Exponent>): string { if e.None? then "" else e.value.sign + e.value.digits }

  lemma BodySpells(n: Number)
    requires WellFormed(n)
    ensures var negative := Spell(n)[0] == '-';
            negative == n.negative &&
            (if negative then Spell(n)[1..] else Spell(n)) ==
              SpellMantissa(n) + (if n.exponent.Some? then [n.exponent.value.mark] + Tail(n.exponent) else "")
  {
    var body := SpellMantissa(n) + if n.exponent.Some? then [n.exponent.value.mark] + Tail(n.exponent) else "";
    assert body[0] == n.whole[0] && IsDigit(n.whole[0]);
    assert Spell(n) == (if n.negative then "-" else "") + body;
  }

  // Nothing for Lower to change, and no exponent mark.
  predicate Plain(text: string) { forall i :: 0 <= i < |text| ==> text[i] in "+-." || IsDigit(text[i]) }

  lemma LowerPlain(text: string)
    requires Plain(text)
    ensures Lower(text) == text && 'e' !in text
  {
  }

  lemma LowerParts(a: string, mark: char, b: string)
    requires Plain(a) && Plain(b) && mark in "eE"
    ensures Lower(a + ([mark] + b)) == a + ['e'] + b && 'e' !in a
  {
    LowerPlain(a);
    LowerPlain(b);
    var text, low := a + ([mark] + b), a + ['e'] + b;
    forall i | 0 <= i < |text| ensures Lower(text)[i] == low[i] {
      if i < |a| { assert text[i] == Lower(a)[i]; }
    }
  }

  lemma PlainParts(n: Number)
    requires WellFormed(n)
    ensures Plain(SpellMantissa(n)) && Plain(Tail(n.exponent))
  {
  }

  // What the code makes of the parts of a well-formed number.
  lemma ReadsParts(n: Number)
    requires WellFormed(n)
    ensures Read(Spell(n)) == (n.negative, SpellMantissa(n), Some(Exponential(n.exponent)))
  {
    BodySpells(n);
    ReadsBody(n);
  }

  lemma ReadsBody(n: Number)
    requires WellFormed(n)
    ensures ReadUnsigned(SpellMantissa(n)
            + (if n.exponent.Some? then [n.exponent.value.mark] + Tail(n.exponent) else ""))
         == (SpellMantissa(n), Some(Exponential(n.exponent)))
  {
    PlainParts(n);
    if n.exponent.Some? {
      LowerParts(SpellMantissa(n), n.exponent.value.mark, Tail(n.exponent));
      CutAtMark(SpellMantissa(n), 'e', Tail(n.exponent));
      ParseIntReads(n.exponent.value);
    } else {
      assert SpellMantissa(n) + "" == SpellMantissa(n);
      LowerPlain(SpellMantissa(n));
      CutWithout(SpellMantissa(n), 'e');
    }
  }

  // ---- The normal form.

  lemma {:induction false} TrimmedValue(text: string)
    requires AllDigits(text)
    ensures |TrimZeros(text)| <= |text| && AllDigits(TrimZeros(text))
    ensures Value(text) == Scaled(Value(TrimZeros(text)), |text| - |TrimZeros(text)|)
    ensures text != "" && text[0] != '0' ==> TrimZeros(text) != "" && TrimZeros(text)[0] == text[0]
  {
    if text != "" && text[|text| - 1] == '0' {
      TrimmedValue(text[..|text| - 1]);
      assert Digit('0') == 0;
    }
  }

  // Digits without zeros at either end.
  predicate Bare(text: string) {
    text != "" && AllDigits(text) && text[0] != '0' && text[|text| - 1] != '0'
  }

  // A number's coefficient stripped bare, and how many zeros fell off its end.
  ghost function Core(n: Number): string
    requires WellFormed(n)
  {
    TrimZeros(StripZeros(n.whole + n.fraction))
  }

  ghost function Fallen(n: Number): int
    requires WellFormed(n)
  {
    |StripZeros(n.whole + n.fraction)| - |Core(n)|
  }

  lemma CutMantissa(n: Number)
    requires WellFormed(n)
    ensures Cut(SpellMantissa(n), '.').0 == n.whole && Cut(SpellMantissa(n), '.').1 == n.fraction
  {
    if n.fraction == "" {
      assert SpellMantissa(n) == n.whole;
      CutWithout(n.whole, '.');
    } else {
      CutAtMark(n.whole, '.', n.fraction);
      assert SpellMantissa(n) == n.whole + ['.'] + n.fraction;
    }
  }

  // The coefficient without its trailing zeros, signed.
  ghost function SignedCore(n: Number): int
    requires WellFormed(n) && AllDigits(Core(n))
  {
    Signed(n.negative, Value(Core(n)))
  }

  lemma CoreValue(n: Number)
    requires WellFormed(n)
    ensures AllDigits(Core(n)) && Fallen(n) >= 0
    ensures Coefficient(n) == 0 <==> StripZeros(n.whole + n.fraction) == ""
    ensures Coefficient(n) != 0 ==> Bare(Core(n))
    ensures Coefficient(n) == Scaled(SignedCore(n), Fallen(n))
  {
    BareTrimmed(n.whole + n.fraction);
    ScaledSign(Value(Core(n)), Fallen(n));
  }

  lemma BareTrimmed(text: string)
    requires AllDigits(text)
    ensures var stripped := StripZeros(text); var core := TrimZeros(stripped);
            && AllDigits(core) && |core| <= |stripped| && Value(text) == Scaled(Value(core), |stripped| - |core|)
            && (stripped == "" <==> Value(text) == 0) && (stripped != "" ==> Bare(core))
  {
    StrippedValue(text);
    TrimmedValue(StripZeros(text));
  }

  lemma BareValue(negative: bool, core: string)
    requires Bare(core)
    ensures Signed(negative, Value(core)) % 10 != 0
  {
    NoFactorOfTen(Value(core[..|core| - 1]), Digit(core[|core| - 1]));
  }

  lemma NoFactorOfTen(tens: nat, digit: nat)
    requires 0 < digit < 10
    ensures (10 * tens + digit) % 10 != 0 && (0 - (10 * tens + digit)) % 10 != 0
  {
  }

  lemma {:induction false} ScaledSign(c: int, k: nat)
    ensures Scaled(0 - c, k) == 0 - Scaled(c, k)
    ensures Scaled(c, k) == 0 <==> c == 0
  {
    if k > 0 { ScaledSign(c, k - 1); }
  }

  lemma CanonicalIsCore(n: Number)
    requires WellFormed(n)
    ensures StripZeros(n.whole + n.fraction) == "" ==> CanonicalDecimal(Spell(n)) == Some("0")
    ensures StripZeros(n.whole + n.fraction) != "" ==>
            CanonicalDecimal(Spell(n)) == Some(Scientific(n.negative, Core(n), Power(n) + Fallen(n)))
  {
    ReadsParts(n);
    CutMantissa(n);
  }

  // A value with no factor of ten determines itself and its power.
  lemma {:induction false} CoreIsUnique(v: int, j: nat, w: int, k: nat)
    requires v % 10 != 0 && w % 10 != 0
    requires Scaled(v, j) == Scaled(w, k)
    ensures j == k && v == w
  {
    if j > 0 && k > 0 {
      CoreIsUnique(v, j - 1, w, k - 1);
    }
  }

  lemma {:induction false} ScaledTwice(c: int, j: nat, k: nat)
    ensures Scaled(c, j + k) == Scaled(Scaled(c, j), k)
  {
    if k > 0 { ScaledTwice(c, j, k - 1); }
  }

  lemma ScaledIsSame(c: int, p: int, k: nat)
    ensures SameRational(Scaled(c, k), p, c, p + k)
  {
  }

  // Stripping both sides bare turns equality of rationals into equality of parts.
  lemma BareRationals(v: int, j: nat, p: int, w: int, k: nat, q: int)
    requires v % 10 != 0 && w % 10 != 0 && p <= q
    ensures Scaled(v, j) == Scaled(Scaled(w, k), q - p) <==> v == w && p + j == q + k
  {
    ScaledTwice(w, k, q - p);
    if Scaled(v, j) == Scaled(w, k + (q - p)) {
      CoreIsUnique(v, j, w, k + (q - p));
    }
  }

  // The number a canonical spelling spells.
  function Normal(negative: bool, core: string, power: int): Number {
    Number(negative, core, "",
           if power == 0 then None
             else Some(Exponent('e', if power < 0 then "-" else "", Numeral(if power < 0 then 0 - power else power))))
  }

  lemma NormalMeans(negative: bool, core: string, power: int)
    requires Bare(core)
    ensures var n := Normal(negative, core, power);
            WellFormed(n) && Coefficient(n) == Signed(negative, Value(core)) && Power(n) == power
  {
    assert core + "" == core;
  }

  lemma ScientificSpells(negative: bool, core: string, power: int)
    requires Bare(core)
    ensures Spell(Normal(negative, core, power)) == Scientific(negative, core, power)
  {
    var n := Normal(negative, core, power);
    assert SpellMantissa(n) == core;
    if power != 0 {
      var e := n.exponent.value;
      assert [e.mark] + e.sign + e.digits == "e" + Itoa(power);
    }
  }

  // A canonical spelling determines its parts.
  lemma ScientificReads(negative: bool, core: string, power: int)
    requires Bare(core)
    ensures Read(Scientific(negative, core, power)) == (negative, core, Some(power))
  {
    NormalMeans(negative, core, power);
    ScientificSpells(negative, core, power);
    ReadsParts(Normal(negative, core, power));
    NormalParts(negative, core, power);
  }

  lemma NormalParts(negative: bool, core: string, power: int)
    ensures var n := Normal(negative, core, power); SpellMantissa(n) == core && n.negative == negative
    ensures Exponential(Normal(negative, core, power).exponent) == power
  {
  }

  lemma ScientificIsNotZero(negative: bool, core: string, power: int)
    requires Bare(core)
    ensures Scientific(negative, core, power) != "0"
  {
    assert Scientific(negative, core, power)[0] == if negative then '-' else core[0];
  }

  // A canonical spelling of c times ten to the p, with the parts it is made of.
  ghost predicate Form(text: string, c: int, p: int, negative: bool, core: string, fallen: int) {
    if c == 0 then text == "0"
    else
      && Bare(core) && fallen >= 0 && c == Scaled(Signed(negative, Value(core)), fallen)
      && text == Scientific(negative, core, p + fallen)
  }

  ghost predicate Canonical(text: string, c: int, p: int) {
    exists negative, core, fallen :: Form(text, c, p, negative, core, fallen)
  }

  lemma Formed(n: Number) returns (text: string)
    requires WellFormed(n)
    ensures CanonicalDecimal(Spell(n)) == Some(text) && Canonical(text, Coefficient(n), Power(n))
  {
    CoreValue(n);
    CanonicalIsCore(n);
    text := CanonicalDecimal(Spell(n)).value;
    assert Form(text, Coefficient(n), Power(n), n.negative, Core(n), Fallen(n));
  }

  lemma DenotedForm(text: string, c: int, p: int)
    requires Denotes(text, c, p)
    ensures CanonicalDecimal(text).Some? && Canonical(CanonicalDecimal(text).value, c, p)
  {
    var n :| WellFormed(n) && Spell(n) == text && Coefficient(n) == c && Power(n) == p;
    var form := Formed(n);
  }

  lemma CanonicalsAlike(s: string, c: int, p: int, t: string, d: int, q: int)
    requires Canonical(s, c, p) && Canonical(t, d, q) && p <= q
    ensures s == t <==> c == Scaled(d, q - p)
  {
    var n, a, j :| Form(s, c, p, n, a, j);
    var m, b, k :| Form(t, d, q, m, b, k);
    FormsAlike(s, c, p, n, a, j, t, d, q, m, b, k);
  }

  lemma FormsAlike(s: string, c: int, p: int, n: bool, a: string, j: int, t: string, d: int, q: int, m: bool, b: string,
                   k: int)
    requires Form(s, c, p, n, a, j) && Form(t, d, q, m, b, k) && p <= q
    ensures s == t <==> c == Scaled(d, q - p)
  {
    ScaledSign(d, q - p);
    if c != 0 && d != 0 {
      SpellingsAlike(n, a, j, p, m, b, k, q);
    } else {
      if c != 0 { ScientificIsNotZero(n, a, p + j); }
      if d != 0 { ScientificIsNotZero(m, b, q + k); }
    }
  }

  lemma SpellingsAlike(n: bool, a: string, j: nat, p: int, m: bool, b: string, k: nat, q: int)
    requires Bare(a) && Bare(b) && p <= q
    ensures Scientific(n, a, p + j) == Scientific(m, b, q + k) <==>
            Scaled(Signed(n, Value(a)), j) == Scaled(Scaled(Signed(m, Value(b)), k), q - p)
  {
    TextsAlike(n, a, p + j, m, b, q + k);
    ValuesAlike(n, a, m, b);
    BareValue(n, a);
    BareValue(m, b);
    BareRationals(Signed(n, Value(a)), j, p, Signed(m, Value(b)), k, q);
  }

  lemma TextsAlike(n: bool, a: string, p: int, m: bool, b: string, q: int)
    requires Bare(a) && Bare(b)
    ensures Scientific(n, a, p) == Scientific(m, b, q) <==> n == m && a == b && p == q
  {
    ScientificReads(n, a, p);
    ScientificReads(m, b, q);
  }

  lemma ValuesAlike(n: bool, a: string, m: bool, b: string)
    requires Bare(a) && Bare(b)
    ensures Signed(n, Value(a)) == Signed(m, Value(b)) <==> n == m && a == b
  {
    StrippedValue(a);
    StrippedValue(b);
    if Value(a) == Value(b) { BareIsUnique(a, b); }
  }

  /** Two JSON numbers are spelled alike exactly when they are the same rational. */
  lemma SpelledAlikeIffEqual(s: string, c: int, p: int, t: string, d: int, q: int)
    requires Denotes(s, c, p) && Denotes(t, d, q)
    ensures CanonicalDecimal(s) == CanonicalDecimal(t) <==> SameRational(c, p, d, q)
  {
    DenotedForm(s, c, p);
    DenotedForm(t, d, q);
    if p <= q {
      CanonicalsAlike(CanonicalDecimal(s).value, c, p, CanonicalDecimal(t).value, d, q);
    } else {
      CanonicalsAlike(CanonicalDecimal(t).value, d, q, CanonicalDecimal(s).value, c, p);
    }
  }

  // A canonical text denotes what it is the canonical text of.
  lemma CanonicalDenotes(text: string, c: int, p: int) returns (d: int, q: int)
    requires Canonical(text, c, p)
    ensures Denotes(text, d, q) && SameRational(c, p, d, q)
  {
    var negative, core, fallen :| Form(text, c, p, negative, core, fallen);
    if c == 0 {
      d, q := 0, 0;
      ZeroMeans();
      ScaledSign(0, if p < 0 then 0 - p else p);
    } else {
      d, q := Signed(negative, Value(core)), p + fallen;
      NormalMeans(negative, core, q);
      ScientificSpells(negative, core, q);
      ScaledIsSame(d, p, fallen);
    }
  }

  lemma ZeroMeans()
    ensures Denotes("0", 0, 0)
  {
    var n := Number(false, "0", "", None);
    assert n.whole + n.fraction == "0";
    assert Spell(n) == "0";
    ValueOfOne('0');
  }

  /** The output is a JSON number of the same value, and its own canonical form. */
  lemma {:induction false} CanonicalIsItsOwnForm(text: string, c: int, p: int) returns (d: int, q: int)
    requires Denotes(text, c, p)
    ensures CanonicalDecimal(text).Some?
    ensures CanonicalDecimal(CanonicalDecimal(text).value) == CanonicalDecimal(text)
    ensures Denotes(CanonicalDecimal(text).value, d, q) && SameRational(c, p, d, q)
  {
    DenotedForm(text, c, p);
    d, q := CanonicalDenotes(CanonicalDecimal(text).value, c, p);
    SpelledAlikeIffEqual(text, c, p, CanonicalDecimal(text).value, d, q);
  }

  /** The generator never panics on a JSON number, and the runtime spells it the same way. */
  lemma GeneratorAndRuntimeAgree(n: Number, undefined: int)
    requires WellFormed(n)
    ensures CanonicalDecimal(Spell(n)) == Some(DeclarationDecimal(Spell(n), undefined))
  {
    ReadsParts(n);
  }
}

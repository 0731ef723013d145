/**
 Decimal digits and the numbers they denote. A text of digits denotes the number read
 from the left; leading zeros do not change it, and without them the digits are the
 only ones that denote it, their number growing with the number denoted. So texts
 without leading zeros may be compared by length and then digit by digit, and a
 number has one numeral. Bounds of repetitions, lengths in paths and the digits of
 canonical decimals all rest on this. Nothing here has a width: what a machine integer
 cannot hold is for whoever reads the number to say.
 */
module DecimalText {
  predicate IsDigit(c: char) { '0' <= c <= '9' }

  predicate AllDigits(text: string) { forall i :: 0 <= i < |text| ==> IsDigit(text[i]) }

  function Digit(c: char): nat
    requires IsDigit(c)
  {
    c as int - '0' as int
  }

  // The number a run of decimal digits denotes.
  function Value(text: string): nat
    requires AllDigits(text)
  {
    if text == "" then 0 else 10 * Value(text[..|text| - 1]) + Digit(text[|text| - 1])
  }

  function Power10(k: nat): nat { if k == 0 then 1 else 10 * Power10(k - 1) }

  function StripZeros(text: string): (r: string)
    ensures r != "" ==> r[0] != '0'
  {
    if text != "" && text[0] == '0' then StripZeros(text[1..]) else text
  }

  lemma {:induction false} ValueSplits(a: string, b: string)
    requires AllDigits(a) && AllDigits(b)
    ensures AllDigits(a + b) && Value(a + b) == Value(a) * Power10(|b|) + Value(b)
  {
    if b == "" {
      assert a + b == a;
    } else {
      var init, last := b[..|b| - 1], b[|b| - 1];
      ValueSplits(a, init);
      assert (a + b)[..|a + b| - 1] == a + init;
      assert 10 * (Value(a) * Power10(|init|)) == Value(a) * Power10(|b|);
    }
  }

  lemma {:induction false} ValueBelowPower(text: string)
    requires AllDigits(text)
    ensures Value(text) < Power10(|text|)
  {
    if text != "" {
      ValueBelowPower(text[..|text| - 1]);
    }
  }

  lemma ValueOfOne(c: char)
    requires IsDigit(c)
    ensures Value([c]) == Digit(c)
  {
    assert [c][..0] == "";
  }

  lemma {:induction false} ValueFromFirst(text: string)
    requires AllDigits(text) && text != ""
    ensures AllDigits(text[1..])
    ensures Value(text) == Digit(text[0]) * Power10(|text| - 1) + Value(text[1..])
  {
    ValueOfOne(text[0]);
    ValueSplits([text[0]], text[1..]);
    assert text == [text[0]] + text[1..];
  }

  lemma {:induction false} StrippingKeepsDigits(text: string)
    requires AllDigits(text)
    ensures AllDigits(StripZeros(text)) && Value(StripZeros(text)) == Value(text)
  {
    if text != "" && text[0] == '0' {
      ValueFromFirst(text);
      assert Digit(text[0]) == 0;
      StrippingKeepsDigits(text[1..]);
    }
  }

  lemma {:induction false} PowerGrows(j: nat, k: nat)
    requires j <= k
    ensures 0 < Power10(j) <= Power10(k)
  {
    if k > 0 {
      if j < k { PowerGrows(j, k - 1); } else { PowerGrows(j - 1, k - 1); }
    }
  }

  lemma {:induction false} StrippedValue(text: string)
    requires AllDigits(text)
    ensures AllDigits(StripZeros(text)) && Value(StripZeros(text)) == Value(text)
    ensures StripZeros(text) == "" <==> Value(text) == 0
  {
    StrippingKeepsDigits(text);
    var digits := StripZeros(text);
    if digits != "" {
      ValueFromFirst(digits);
      PowerGrows(0, |digits| - 1);
      Positive(Digit(digits[0]), Power10(|digits| - 1));
    }
  }

  lemma Positive(a: nat, b: nat)
    requires a > 0 && b > 0
    ensures a * b > 0
  {
  }

  // The decimal numeral of a number.
  function Numeral(n: nat): (r: string)
    ensures r != "" && AllDigits(r) && Value(r) == n
  {
    var last := ['0' + (n % 10) as char];
    if n < 10 then assert last[..0] == ""; last
    else var r := Numeral(n / 10) + last; assert r[..|r| - 1] == Numeral(n / 10); r
  }

  // Without leading zeros a number has one spelling.
  lemma {:induction false} BareIsUnique(a: string, b: string)
    requires AllDigits(a) && AllDigits(b) && (a != "" ==> a[0] != '0') && (b != "" ==> b[0] != '0')
    requires Value(a) == Value(b)
    ensures a == b
  {
    StrippedValue(a);
    StrippedValue(b);
    if a != "" && b != "" {
      BareIsUnique(a[..|a| - 1], b[..|b| - 1]);
      assert a == a[..|a| - 1] + [a[|a| - 1]] && b == b[..|b| - 1] + [b[|b| - 1]];
    }
  }

  lemma {:induction false} NumeralIsBare(n: nat)
    ensures n > 0 ==> Numeral(n)[0] != '0'
    ensures n == 0 ==> Numeral(n) == "0"
  {
    if n >= 10 { NumeralIsBare(n / 10); }
  }

  // Digits without a leading zero are the numeral of their value.
  lemma {:induction false} BareIsNumeral(digits: string)
    requires digits != "" && AllDigits(digits) && (digits[0] == '0' ==> |digits| == 1)
    ensures digits == Numeral(Value(digits))
  {
    NumeralIsBare(Value(digits));
    if digits[0] == '0' {
      ValueOfOne('0');
      assert digits == "0";
    } else {
      StrippedValue(digits);
      BareIsUnique(digits, Numeral(Value(digits)));
    }
  }
}

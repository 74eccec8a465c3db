/** Natural numbers written in decimal. */
module Decimals {
  function Digit(d: nat): char requires d < 10 { ['0', '1', '2', '3', '4', '5', '6', '7', '8', '9'][d] }

  function Decimal(n: nat): (s: string)
    ensures s != [] && forall c | c in s :: '0' <= c <= '9'
  {
    if n < 10 then [Digit(n)] else Decimal(n / 10) + [Digit(n % 10)]
  }

  lemma {:induction false} DecimalInjective(m: nat, n: nat)
    requires Decimal(m) == Decimal(n)
    ensures m == n
    decreases m
  {
    var s, t := Decimal(m), Decimal(n);
    assert s[|s| - 1] == Digit(m % 10) && t[|t| - 1] == Digit(n % 10);
    assert m >= 10 ==> s[..|s| - 1] == Decimal(m / 10);
    assert n >= 10 ==> t[..|t| - 1] == Decimal(n / 10);
    if m >= 10 && n >= 10 { DecimalInjective(m / 10, n / 10); }
  }

  predicate IsDigit(c: char) { '0' <= c <= '9' }

  /** A text, a separator, and a number. */
  function Labelled(text: string, separator: char, n: nat): string { text + [separator] + Decimal(n) }

  lemma LastSeparator(text: string, separator: char, n: nat)
    requires !IsDigit(separator)
    ensures |Labelled(text, separator, n)| > |text| && Labelled(text, separator, n)[|text|] == separator
    ensures forall i | |text| < i < |Labelled(text, separator, n)| :: IsDigit(Labelled(text, separator, n)[i])
  {
    var t := Labelled(text, separator, n);
    forall i | |text| < i < |t| ensures IsDigit(t[i]) {
      assert t[i] == Decimal(n)[i - |text| - 1];
      assert t[i] in Decimal(n);
    }
  }

  /** Whatever the text is, the label tells it and the number apart. */
  lemma LabelledInjective(text: string, m: nat, other: string, n: nat, separator: char)
    requires !IsDigit(separator) && Labelled(text, separator, m) == Labelled(other, separator, n)
    ensures text == other && m == n
  {
    var t := Labelled(text, separator, m);
    LastSeparator(text, separator, m);
    LastSeparator(other, separator, n);
    assert |text| == |other|;
    assert text == t[..|text|] == other && Decimal(m) == t[|text| + 1..] == Decimal(n);
    DecimalInjective(m, n);
  }
}

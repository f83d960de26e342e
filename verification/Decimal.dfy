/** Decimal numerals, as a template literal prints a counter. */
module Decimal {

  predicate IsDigit(c: char) {
    '0' <= c <= '9'
  }

  predicate AllDigits(s: string) {
    forall i :: 0 <= i < |s| ==> IsDigit(s[i])
  }

  function Numeral(n: nat): (s: string)
    ensures s != "" && AllDigits(s)
  {
    var last := ["0123456789"[n % 10]];
    if n < 10 then last else Numeral(n / 10) + last
  }

  function ValueOf(s: string): nat
    requires AllDigits(s)
  {
    if s == "" then 0
    else 10 * ValueOf(s[..|s| - 1]) + (s[|s| - 1] as int - '0' as int)
  }

  /** A numeral denotes its number, without leading zeros. */
  lemma {:induction false} NumeralValue(n: nat)
    ensures ValueOf(Numeral(n)) == n
    ensures Numeral(n)[0] == '0' ==> n == 0
    ensures n < 10 <==> |Numeral(n)| == 1
  {
    var last := "0123456789"[n % 10];
    assert last as int - '0' as int == n % 10;
    if n >= 10 {
      NumeralValue(n / 10);
      assert Numeral(n)[..|Numeral(n)| - 1] == Numeral(n / 10);
    } else {
      assert Numeral(n)[..0] == "";
    }
  }

  /**
   * A numeral can be read back off the end of a string whose other part does not end in a digit, so the
   * numeral and the part before it are both determined.
   */
  lemma NumeralSuffix(p: string, m: nat, q: string, n: nat)
    requires p != "" && !IsDigit(p[|p| - 1]) && q != "" && !IsDigit(q[|q| - 1])
    requires p + Numeral(m) == q + Numeral(n)
    ensures p == q && m == n
  {
    var s := p + Numeral(m);
    assert !IsDigit(s[|p| - 1]);
    assert forall i :: |p| <= i < |s| ==> s[i] == Numeral(m)[i - |p|] && IsDigit(s[i]);
    assert !IsDigit((q + Numeral(n))[|q| - 1]);
    assert forall i :: |q| <= i < |s| ==> s[i] == Numeral(n)[i - |q|] && IsDigit(s[i]);
    assert |p| == |q|;
    assert p == s[..|p|] && q == s[..|q|];
    assert Numeral(m) == s[|p|..] && Numeral(n) == s[|q|..];
    NumeralValue(m);
    NumeralValue(n);
  }
}

/** Decimal numerals as JavaScript prints and reads whole numbers. */
module Decimal {

  predicate IsDigit(c: char) {
    '0' <= c <= '9'
  }

  predicate AllDigits(s: string) {
    forall i | 0 <= i < |s| :: IsDigit(s[i])
  }

  function DigitOf(d: nat): (c: char)
    requires d < 10
    ensures IsDigit(c)
  {
    '0' + d as char
  }

  function ValueOf(c: char): (d: nat)
    requires IsDigit(c)
    ensures d < 10 && DigitOf(d) == c
  {
    (c - '0') as nat
  }

  /** `String(n)` for a whole `n`. */
  function Print(n: nat): (s: string)
    ensures s != [] && AllDigits(s)
    ensures s[0] == '0' <==> n == 0
  {
    if n < 10 then [DigitOf(n)] else Print(n / 10) + [DigitOf(n % 10)]
  }

  /** `Number(s)` for a string of digits. */
  function Value(s: string): nat
    requires AllDigits(s)
  {
    if s == [] then 0 else 10 * Value(s[..|s| - 1]) + ValueOf(s[|s| - 1])
  }

  /** `${n}` for any whole number. */
  function PrintInt(n: int): string {
    if n < 0 then "-" + Print(-n) else Print(n)
  }

  function Pow10(k: nat): (p: nat)
    ensures p >= 1
  {
    if k == 0 then 1 else 10 * Pow10(k - 1)
  }

  /** Reading back what was printed gives the number. */
  lemma {:induction false} ValueOfPrint(n: nat)
    ensures Value(Print(n)) == n
  {
    if n >= 10 {
      ValueOfPrint(n / 10);
      assert Print(n)[..|Print(n)| - 1] == Print(n / 10);
    }
  }

  lemma PrintAppends(n: nat, d: nat)
    requires n >= 1 && d < 10
    ensures Print(10 * n + d) == Print(n) + [DigitOf(d)]
  {
    assert (10 * n + d) / 10 == n && (10 * n + d) % 10 == d;
  }

  /** A numeral without a leading zero is what its value prints as. */
  lemma {:induction false} PrintOfValue(s: string)
    requires AllDigits(s) && s != [] && s[0] != '0'
    ensures Value(s) >= 1 && Print(Value(s)) == s
  {
    var last := |s| - 1;
    if last > 0 {
      PrintOfValue(s[..last]);
      PrintAppends(Value(s[..last]), ValueOf(s[last]));
      assert s == s[..last] + [s[last]];
    } else {
      assert s[..last] == [];
      assert s == [s[last]];
    }
  }

  /** Different numbers print differently. */
  lemma PrintInjective(m: nat, n: nat)
    requires Print(m) == Print(n)
    ensures m == n
  {
    ValueOfPrint(m);
    ValueOfPrint(n);
  }

  /** A number has at most `k` digits exactly when it is below `10^k`. */
  lemma {:induction false} PrintLength(n: nat, k: nat)
    requires k >= 1
    ensures |Print(n)| <= k <==> n < Pow10(k)
  {
    if k == 1 {
      assert Pow10(1) == 10 * Pow10(0);
    } else if n >= 10 {
      PrintLength(n / 10, k - 1);
    } else {
      assert Pow10(k) == 10 * Pow10(k - 1);
    }
  }

  /** A few numerals, written out. */
  lemma Numerals()
    ensures Print(0) == PrintInt(0) == "0"
    ensures Print(1024) == PrintInt(1024) == "1024" && PrintInt(-1024) == "-1024"
    ensures Print(98765) == "98765"
  {
  }
}

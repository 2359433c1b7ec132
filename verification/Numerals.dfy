/** Numbers as the metrics print them, and how a reader gets them back. */
module Numerals {
  function Digit(n: nat): (c: char)
    requires n < 10
    ensures '0' <= c <= '9'
  {
    ('0' as int + n) as char
  }

  function Decimal(n: nat): (s: string)
    ensures s != "" && forall c | c in s :: '0' <= c <= '9'
  {
    if n < 10 then [Digit(n)] else Decimal(n / 10) + [Digit(n % 10)]
  }

  function ValueOf(c: char): int {
    c as int - '0' as int
  }

  function ParseDecimal(s: string): int {
    if s == "" then 0
    else
      var n := |s| - 1;
      10 * ParseDecimal(s[..n]) + ValueOf(s[n])
  }

  lemma {:induction false} DecimalIsReadBack(n: nat)
    ensures ParseDecimal(Decimal(n)) == n
  {
    if n < 10 {
      assert ParseDecimal([Digit(n)]) == 10 * ParseDecimal([Digit(n)][..0]) + n;
    } else {
      DecimalIsReadBack(n / 10);
      var s := Decimal(n);
      assert s[..|s| - 1] == Decimal(n / 10);
    }
  }

  /** Three digits after the point. */
  function Fixed(thousandths: nat): string {
    var f := thousandths % 1000;
    Decimal(thousandths / 1000) + "." + [Digit(f / 100), Digit(f / 10 % 10), Digit(f % 10)]
  }

  function ParseFixed(s: string): int
    requires |s| >= 4
  {
    var n := |s| - 4;
    1000 * ParseDecimal(s[..n]) + 100 * ValueOf(s[n + 1]) + 10 * ValueOf(s[n + 2]) + ValueOf(s[n + 3])
  }

  lemma {:induction false} FixedIsReadBack(thousandths: nat)
    ensures |Fixed(thousandths)| >= 4 && ParseFixed(Fixed(thousandths)) == thousandths
  {
    var whole, f := Decimal(thousandths / 1000), thousandths % 1000;
    var s := Fixed(thousandths);
    assert s[..|s| - 4] == whole;
    DecimalIsReadBack(thousandths / 1000);
  }

  lemma {:induction false} NumeralsHaveNoNewline(n: nat)
    ensures '\n' !in Decimal(n) && '\n' !in Fixed(n)
  {
  }
}

/** Decimal labels such as "ch-12" and "task-7". */
module Labels {

  function Digit(n: nat): char
    requires n < 10
  {
    ('0' as int + n) as char
  }

  function Decimal(n: nat): string {
    if n < 10 then [Digit(n)] else Decimal(n / 10) + [Digit(n % 10)]
  }

  function DecimalValue(s: string): int {
    if s == [] then 0 else 10 * DecimalValue(s[..|s| - 1]) + (s[|s| - 1] as int - '0' as int)
  }

  lemma {:induction false} DecimalRoundTrip(n: nat)
    ensures DecimalValue(Decimal(n)) == n
  {
    if n >= 10 {
      DecimalRoundTrip(n / 10);
      assert Decimal(n)[..|Decimal(n)| - 1] == Decimal(n / 10);
    } else {
      assert DecimalValue([]) == 0 && Decimal(n)[..0] == [];
    }
  }

  function Label(prefix: string, n: nat): string {
    prefix + Decimal(n)
  }

  /** Two numbers never print to the same label. */
  lemma LabelIsInjective(prefix: string, a: nat, b: nat)
    ensures Label(prefix, a) == Label(prefix, b) <==> a == b
  {
    if Label(prefix, a) == Label(prefix, b) {
      assert Decimal(a) == Label(prefix, a)[|prefix|..] == Label(prefix, b)[|prefix|..] == Decimal(b);
      DecimalRoundTrip(a);
      DecimalRoundTrip(b);
    }
  }
}

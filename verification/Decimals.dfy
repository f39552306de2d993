/** Numbers in decimal, written and read. */
module Decimals {
  import opened Wrappers

  function Decimal(n: nat): string {
    (if n < 10 then "" else Decimal(n / 10)) + [('0' as int + n % 10) as char]
  }

  /** The value of a nonempty run of digits. */
  function Digits(s: string): Option<nat> {
    if s == "" then None
    else
      var (init, last) := (s[..|s| - 1], s[|s| - 1]);
      if !('0' <= last <= '9') then None
      else
        var digit := last as int - '0' as int;
        if init == "" then Some(digit)
        else
          var higher := Digits(init);
          if higher.None? then None else Some(10 * higher.value + digit)
  }

  /** A number's decimal text reads back as the number and has no needless zero in front. */
  lemma {:induction false} DecimalReadsBack(n: nat)
    ensures Digits(Decimal(n)) == Some(n)
    ensures Decimal(n) != "" && (Decimal(n)[0] == '0' <==> n == 0)
  {
    if n >= 10 {
      DecimalReadsBack(n / 10);
      assert Decimal(n)[..|Decimal(n)| - 1] == Decimal(n / 10);
    }
  }

  function Power10(k: nat): nat {
    if k == 0 then 1 else 10 * Power10(k - 1)
  }

  lemma {:induction false} DecimalLength(n: nat, k: nat)
    requires k >= 1 && n < Power10(k)
    ensures |Decimal(n)| <= k
  {
    if n >= 10 {
      assert k > 1;
      DecimalLength(n / 10, k - 1);
    }
  }

  lemma WordHasAtMost20Digits(n: nat)
    requires n <= WORD_MAX
    ensures |Decimal(n)| <= 20
  {
    assert Power10(5) == 100_000;
    assert Power10(10) == 100_000 * Power10(5);
    assert Power10(15) == 100_000 * Power10(10);
    assert Power10(20) == 100_000 * Power10(15);
    DecimalLength(n, 20);
  }
}

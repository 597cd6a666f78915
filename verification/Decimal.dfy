/** Decimal notation, as str() and CAST(… AS VARCHAR) write a non-negative id. */
module Decimal {

  function Digit(d: nat): char
    requires d < 10
  {
    ['0', '1', '2', '3', '4', '5', '6', '7', '8', '9'][d]
  }

  function Str(n: nat): (s: string)
    ensures s != []
  {
    if n < 10 then [Digit(n)] else Str(n / 10) + [Digit(n % 10)]
  }

  /** The number a digit string stands for. */
  function Value(s: string): nat {
    if s == [] then 0 else 10 * Value(s[..|s| - 1]) + DigitValue(s[|s| - 1])
  }

  function DigitValue(c: char): nat {
    if '0' <= c <= '9' then (c as int - '0' as int) as nat else 0
  }

  lemma {:induction false} ReadsBack(n: nat)
    ensures Value(Str(n)) == n
  {
    if n < 10 {
      assert Value(Str(n)[..0]) == 0;
    } else {
      ReadsBack(n / 10);
      assert Str(n)[..|Str(n)| - 1] == Str(n / 10);
    }
  }

  /** Different ids are written differently. */
  lemma StrInjective(m: nat, n: nat)
    requires Str(m) == Str(n)
    ensures m == n
  {
    ReadsBack(m);
    ReadsBack(n);
  }

  lemma {:induction false} StrHasDigitsOnly(n: nat)
    ensures forall c :: c in Str(n) ==> '0' <= c <= '9'
  {
    if n >= 10 { StrHasDigitsOnly(n / 10); }
  }
}

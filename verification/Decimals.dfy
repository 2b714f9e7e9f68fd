/** Decimal text of integers, as printf's "%lu" and "%1.15g" (below 10^15) write them. */
module Decimals {

  predicate IsDigit(c: char) {
    '0' <= c <= '9'
  }

  function Digit(d: nat): (c: char)
    requires d < 10
    ensures IsDigit(c) && c as int - '0' as int == d
  {
    (d + '0' as int) as char
  }

  function Decimal(n: nat): string {
    if n < 10 then [Digit(n)] else Decimal(n / 10) + [Digit(n % 10)]
  }

  /** Signed decimal text. */
  function SignedDecimal(n: int): string {
    if n < 0 then "-" + Decimal(-n) else Decimal(n)
  }

  /** The number a run of characters reads as when every one is taken for a digit. */
  function ValueFrom(acc: nat, s: string): nat
    requires forall i :: 0 <= i < |s| ==> s[i] >= '0'
    decreases |s|
  {
    if s == [] then acc else ValueFrom(10 * acc + (s[0] as int - '0' as int), s[1..])
  }

  lemma {:induction false} ValueFromAppend(acc: nat, s: string, c: char)
    requires c >= '0' && forall i :: 0 <= i < |s| ==> s[i] >= '0'
    ensures ValueFrom(acc, s + [c]) == 10 * ValueFrom(acc, s) + (c as int - '0' as int)
    decreases |s|
  {
    if s == [] {
      assert s + [c] == [c];
    } else {
      assert (s + [c])[1..] == s[1..] + [c];
      ValueFromAppend(10 * acc + (s[0] as int - '0' as int), s[1..], c);
    }
  }

  /** Decimal text consists of digits, has no leading zero except for zero itself, and reads back. */
  lemma {:induction false} DecimalReadsBack(n: nat)
    ensures |Decimal(n)| > 0 && forall i :: 0 <= i < |Decimal(n)| ==> IsDigit(Decimal(n)[i])
    ensures Decimal(n)[0] == '0' ==> n == 0 && Decimal(n) == "0"
    ensures forall i :: 0 <= i < |Decimal(n)| ==> Decimal(n)[i] >= '0'
    ensures ValueFrom(0, Decimal(n)) == n
  {
    if n >= 10 {
      DecimalReadsBack(n / 10);
      ValueFromAppend(0, Decimal(n / 10), Digit(n % 10));
    }
  }
}

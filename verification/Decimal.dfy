/** Decimal text of integers, as JavaScript template literals render and Number() reads it. */
module Decimal {
  import opened Wrappers

  predicate IsDigit(c: char) { '0' <= c <= '9' }

  function Digit(d: nat): char
    requires d < 10
  {
    (d + '0' as int) as char
  }

  function Nat(n: nat): (s: string)
    ensures s != [] && forall i :: 0 <= i < |s| ==> IsDigit(s[i])
  {
    if n < 10 then [Digit(n)] else Nat(n / 10) + [Digit(n % 10)]
  }

  function Int(n: int): string {
    if n < 0 then "-" + Nat(-n) else Nat(n)
  }

  function ParseNat(s: string): Option<nat> {
    if s == [] then None
    else
      var c := s[|s| - 1];
      if !IsDigit(c) then None
      else if |s| == 1 then Some(c as int - '0' as int)
      else
        match ParseNat(s[..|s| - 1])
        case None => None
        case Some(q) => Some(10 * q + (c as int - '0' as int))
  }

  function ParseInt(s: string): Option<int> {
    if s != [] && s[0] == '-' then
      var n := ParseNat(s[1..]);
      if n.None? then None else Some(0 - n.value)
    else ParseNat(s)
  }

  lemma {:induction false} NatRoundTrip(n: nat)
    ensures ParseNat(Nat(n)) == Some(n)
  {
    if n >= 10 {
      NatRoundTrip(n / 10);
      assert Nat(n)[..|Nat(n)| - 1] == Nat(n / 10);
    }
  }

  lemma IntRoundTrip(n: int)
    ensures ParseInt(Int(n)) == Some(n)
  {
    if n < 0 {
      NatRoundTrip(-n);
      assert Int(n)[1..] == Nat(-n);
    } else {
      NatRoundTrip(n);
      assert IsDigit(Nat(n)[0]);
    }
  }

  lemma NatInjective(m: nat, n: nat)
    requires Nat(m) == Nat(n)
    ensures m == n
  {
    NatRoundTrip(m);
    NatRoundTrip(n);
  }

  /** The usual decimal numeral: one digit below ten, and otherwise the numeral of the tens
      followed by the digit of the units; only zero starts with '0'. */
  lemma {:induction false} NatIs(n: nat)
    ensures n < 10 ==> Nat(n) == ["0123456789"[n]]
    ensures n >= 10 ==> Nat(n) == Nat(n / 10) + ["0123456789"[n % 10]]
    ensures n > 0 ==> Nat(n)[0] != '0'
  {
    if n >= 10 { NatIs(n / 10); }
  }
}

/**
 Integers in decimal, as strconv.Itoa and big.Int.String print them, with the inverse that
 lets the reader of a diff recover every number exactly, whatever its sign and size.
 */
module Decimals {

  predicate Digit(c: char) { '0' <= c <= '9' }

  function NatText(n: nat): (s: string)
    ensures s != "" && Digit(s[0])
    decreases n
  {
    if n < 10 then [(n as char) + '0'] else NatText(n / 10) + [((n % 10) as char) + '0']
  }

  function NatValue(s: string): int {
    if s == "" then 0 else NatValue(s[..|s| - 1]) * 10 + (s[|s| - 1] as int - '0' as int)
  }

  function IntText(n: int): string {
    if n < 0 then "-" + NatText(-n) else NatText(n)
  }

  function IntValue(s: string): int {
    if s != "" && s[0] == '-' then -NatValue(s[1..]) else NatValue(s)
  }

  lemma {:induction false} NatRoundTrip(n: nat)
    ensures NatValue(NatText(n)) == n
    decreases n
  {
    var s := NatText(n);
    if n < 10 {
      assert s[..0] == "";
    } else {
      NatRoundTrip(n / 10);
      assert s[..|s| - 1] == NatText(n / 10);
    }
  }

  lemma IntRoundTrip(n: int)
    ensures IntValue(IntText(n)) == n
  {
    if n < 0 {
      NatRoundTrip(-n);
      assert ("-" + NatText(-n))[1..] == NatText(-n);
    } else {
      NatRoundTrip(n);
    }
  }

  lemma IntInjective(m: int, n: int)
    ensures IntText(m) == IntText(n) <==> m == n
  {
    IntRoundTrip(m);
    IntRoundTrip(n);
  }
}

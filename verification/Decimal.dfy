/** Decimal printing and `parse::<u64>()`, with the round trip between them. */
module Decimal {
  import opened Prelude

  const U64_LIMIT: nat := 0x1_0000_0000_0000_0000

  type U64 = n: nat | n < U64_LIMIT

  predicate IsDigit(c: char) {
    '0' <= c <= '9'
  }

  predicate AllDigits(s: string) {
    forall i | 0 <= i < |s| :: IsDigit(s[i])
  }

  function DigitChar(d: nat): (c: char)
    requires d < 10
    ensures IsDigit(c) && DigitValue(c) == d
  {
    '0' + d as char
  }

  function DigitValue(c: char): (d: nat)
    requires IsDigit(c)
    ensures d < 10
  {
    c as int - '0' as int
  }

  /** `format!("{n}")` */
  function Digits(n: nat): (s: string)
    ensures s != "" && AllDigits(s)
  {
    if n < 10 then [DigitChar(n)] else Digits(n / 10) + [DigitChar(n % 10)]
  }

  function ValueOf(s: string): nat
    requires AllDigits(s)
  {
    if s == "" then 0 else ValueOf(s[..|s| - 1]) * 10 + DigitValue(s[|s| - 1])
  }

  /** Digits with an optional leading `+`; empty or overflowing text is an error. */
  function ParseU64(s: string): Option<U64> {
    var body := if s != "" && s[0] == '+' then s[1..] else s;
    if body == "" || !AllDigits(body) || ValueOf(body) >= U64_LIMIT then None else Some(ValueOf(body))
  }

  lemma {:induction false} ValueOfDigits(n: nat)
    ensures ValueOf(Digits(n)) == n
  {
    if n >= 10 {
      ValueOfDigits(n / 10);
      var s := Digits(n);
      assert s[..|s| - 1] == Digits(n / 10);
    } else {
      assert Digits(n)[..0] == "";
    }
  }

  lemma ParsePrinted(n: U64)
    ensures ParseU64(Digits(n)) == Some(n)
  {
    ValueOfDigits(n);
    assert IsDigit(Digits(n)[0]);
  }

  lemma DigitsInjective(a: nat, b: nat)
    requires Digits(a) == Digits(b)
    ensures a == b
  {
    ValueOfDigits(a);
    ValueOfDigits(b);
  }

  /** The texts that parse to n: its digits, with any number of leading zeros and at most one `+`. */
  lemma ParsesIff(s: string, n: U64)
    ensures ParseU64(s) == Some(n) <==>
            exists body | body == s || "+" + body == s :: body != "" && AllDigits(body) && ValueOf(body) == n
  {
    if ParseU64(s) == Some(n) {
      var body := if s[0] == '+' then s[1..] else s;
      assert body == s || "+" + body == s;
    }
    if body :| (body == s || "+" + body == s) && body != "" && AllDigits(body) && ValueOf(body) == n {
      assert IsDigit(body[0]);
      assert body != s ==> s[1..] == body;
    }
  }
}

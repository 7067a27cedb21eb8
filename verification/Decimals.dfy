/** Decimal text of numbers. */
module Decimals {
  import opened Wrappers

  const U32_MAX: nat := 0xFFFF_FFFF

  function DigitChar(d: nat): char
    requires d < 10
  {
    (48 + d) as char
  }

  predicate IsDigit(c: char) { '0' <= c <= '9' }

  predicate AllDigits(s: string) {
    forall i :: 0 <= i < |s| ==> IsDigit(s[i])
  }

  function ToDecimal(n: nat): (s: string)
    ensures s != "" && AllDigits(s)
  {
    if n < 10 then [DigitChar(n)] else ToDecimal(n / 10) + [DigitChar(n % 10)]
  }

  /** The value of a string of digits. */
  function FromDigits(s: string): nat
    requires AllDigits(s)
  {
    if s == "" then 0
    else
      var last := s[|s| - 1];
      assert IsDigit(last);
      FromDigits(s[..|s| - 1]) * 10 + (last as int - 48)
  }

  /** Reads a 32-bit unsigned number: an optional plus sign, then at least one digit, within range. */
  function ParseU32(s: string): Option<nat> {
    var digits := if s != "" && s[0] == '+' then s[1..] else s;
    if digits == "" || !AllDigits(digits) then None
    else if FromDigits(digits) > U32_MAX then None
    else Some(FromDigits(digits))
  }

  lemma {:induction false} FromToDecimal(n: nat)
    ensures FromDigits(ToDecimal(n)) == n
  {
    if n < 10 {
      assert ToDecimal(n)[..0] == "";
    } else {
      FromToDecimal(n / 10);
      assert ToDecimal(n)[..|ToDecimal(n)| - 1] == ToDecimal(n / 10);
    }
  }

  /** Printing then reading a number gives it back exactly when it fits 32 bits. */
  lemma {:induction false} ParseToDecimal(n: nat)
    ensures ParseU32(ToDecimal(n)) == if n <= U32_MAX then Some(n) else None
  {
    FromToDecimal(n);
    assert ToDecimal(n)[0] != '+';
  }

  lemma {:induction false} ToDecimalInjective(m: nat, n: nat)
    requires ToDecimal(m) == ToDecimal(n)
    ensures m == n
  {
    FromToDecimal(m);
    FromToDecimal(n);
  }

  /** Decimal text, digit by digit. */
  lemma {:induction false} DecimalText(n: nat)
    ensures n < 10 ==> ToDecimal(n) == ["0123456789"[n]]
    ensures n >= 10 ==> ToDecimal(n) == ToDecimal(n / 10) + ["0123456789"[n % 10]]
  {
  }

  /** Exactly which texts are read as a number: digits, after a plus sign or not, of at most 32 bits. */
  lemma {:induction false} ParseU32Iff(s: string, n: nat)
    ensures ParseU32(s) == Some(n) <==>
            n <= 4294967295 && exists t :: t != "" && AllDigits(t) && FromDigits(t) == n && (s == t || s == "+" + t)
  {
    if ParseU32(s) == Some(n) {
      var t := if s[0] == '+' then s[1..] else s;
      assert s != "" && s == [s[0]] + s[1..];
      assert s[0] == '+' ==> s == "+" + t;
      assert t != "" && AllDigits(t) && (s == t || s == "+" + t);
    }
    if t :| t != "" && AllDigits(t) && FromDigits(t) == n && (s == t || s == "+" + t) {
      assert IsDigit(t[0]);
      assert s == "+" + t ==> s[1..] == t;
    }
  }
}

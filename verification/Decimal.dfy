/** Decimal text of natural numbers, and the canonical decimal parsers of the hosts. */
module Decimal {
  import opened Protocol

  predicate IsDigit(c: char) { '0' <= c <= '9' }

  predicate AllDigits(s: string) { forall i | 0 <= i < |s| :: IsDigit(s[i]) }

  function DigitValue(c: char): (d: nat)
    requires IsDigit(c)
    ensures d < 10
  {
    c as int - '0' as int
  }

  function DigitChar(d: nat): (c: char)
    requires d < 10
    ensures IsDigit(c) && DigitValue(c) == d
  {
    ('0' as int + d) as char
  }

  /** Decimal formatting without padding. */
  function Print(n: nat): (s: string)
    ensures s != [] && AllDigits(s)
  {
    if n < 10 then [DigitChar(n)] else Print(n / 10) + [DigitChar(n % 10)]
  }

  function ValueOf(s: string): nat
    requires AllDigits(s)
  {
    if s == [] then 0 else 10 * ValueOf(s[..|s| - 1]) + DigitValue(Last(s))
  }

  lemma {:induction false} ValueOfPrint(n: nat)
    ensures ValueOf(Print(n)) == n
    ensures Print(n)[0] == '0' ==> n == 0 && |Print(n)| == 1
  {
    if n < 10 {
      assert Print(n)[..0] == [];
    } else {
      ValueOfPrint(n / 10);
      var s := Print(n);
      assert s[..|s| - 1] == Print(n / 10);
    }
  }

  lemma PrintInjective(m: nat, n: nat)
    requires Print(m) == Print(n)
    ensures m == n
  {
    ValueOfPrint(m);
    ValueOfPrint(n);
  }

  predicate Canonical(s: string) {
    s != [] && AllDigits(s) && (|s| > 1 ==> s[0] != '0')
  }

  lemma {:induction false} PrintOfValue(s: string)
    requires Canonical(s)
    ensures Print(ValueOf(s)) == s
    ensures |s| > 1 ==> ValueOf(s) >= 10
  {
    var front := s[..|s| - 1];
    if |s| == 1 {
      assert ValueOf(front) == 0;
    } else {
      PrintOfValue(front);
      if |front| == 1 {
        assert front[..0] == [];
        assert ValueOf(front) == DigitValue(front[0]);
      }
      var v := ValueOf(s);
      assert v / 10 == ValueOf(front) && v % 10 == DigitValue(Last(s));
      assert s == front + [Last(s)];
    }
  }

  /** Digit by digit with checked 64-bit arithmetic. */
  function Accumulate(s: string): Option<U64>
    requires AllDigits(s)
  {
    if s == [] then Some(0)
    else
      match Accumulate(s[..|s| - 1])
      case None => None
      case Some(v) =>
        if 10 * v > U64_MAX then None
        else if 10 * v + DigitValue(Last(s)) > U64_MAX then None
        else Some(10 * v + DigitValue(Last(s)))
  }

  lemma {:induction false} AccumulateIsValue(s: string)
    requires AllDigits(s)
    ensures Accumulate(s) == if ValueOf(s) <= U64_MAX then Some(ValueOf(s)) else None
  {
    if s != [] {
      AccumulateIsValue(s[..|s| - 1]);
    }
  }

  /** The server's parser of subscription shares. */
  function ParseSubscriptionShares(s: string): Option<U64> {
    if s == [] || !AllDigits(s) || (|s| > 1 && s[0] == '0') then None else Accumulate(s)
  }

  datatype GenerationError = InvalidGeneration

  /** The server's parser of timeline generations. */
  function ParseGeneration(s: string): Result<U64, GenerationError> {
    if s == [] || !AllDigits(s) || (|s| > 1 && s[0] == '0') then Err(InvalidGeneration)
    else match Accumulate(s) case Some(n) => Ok(n) case None => Err(InvalidGeneration)
  }

  datatype SharesError = NotCanonical | OutOfRange

  /** The browser host's parser of rights shares. */
  function ParseRightsShares(s: string): Result<U64, SharesError> {
    if s == [] || (|s| > 1 && s[0] == '0') || !AllDigits(s) then Err(NotCanonical)
    else match Accumulate(s) case Some(n) => Ok(n) case None => Err(OutOfRange)
  }

  /** Canonical decimals: a string is accepted with value n exactly when it is the decimal text of n and
      n fits 64 bits; so printing and parsing are mutual inverses. */
  lemma ParsesExactlyPrinted(s: string, n: nat)
    ensures (ParseSubscriptionShares(s).Some? && ParseSubscriptionShares(s).value == n) <==>
              n <= U64_MAX && s == Print(n)
  {
    if Canonical(s) {
      AccumulateIsValue(s);
      PrintOfValue(s);
    }
    if s == Print(n) {
      ValueOfPrint(n);
    }
  }

  /** All three parsers accept the same strings with the same values; the browser's also tells apart a
      non-canonical string from one that is merely too large. */
  lemma ParsersAgree(s: string)
    ensures ParseGeneration(s).Ok? <==> ParseSubscriptionShares(s).Some?
    ensures ParseRightsShares(s).Ok? <==> ParseSubscriptionShares(s).Some?
    ensures ParseSubscriptionShares(s).Some? ==>
              ParseGeneration(s) == Ok(ParseSubscriptionShares(s).value)
                  && ParseRightsShares(s) == Ok(ParseSubscriptionShares(s).value)
    ensures ParseRightsShares(s) == Err(OutOfRange) <==> exists n: nat :: n > U64_MAX && s == Print(n)
  {
    if Canonical(s) {
      AccumulateIsValue(s);
      PrintOfValue(s);
    }
    forall n: nat | n > U64_MAX && s == Print(n) ensures ParseRightsShares(s) == Err(OutOfRange) {
      ValueOfPrint(n);
      AccumulateIsValue(s);
    }
  }
}

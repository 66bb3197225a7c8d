/** Octets, the unit of file contents and of network streams. */
module Octets {
  type Octet = c: char | c as int < 256 witness 'a'
  type Bytes = seq<Octet>
}

module Options {
  datatype Option<+T> = None | Some(value: T)
}

/** Decimal numerals. */
module Decimals {
  import opened Octets
  import opened Options

  function Decimal(n: nat): (s: Bytes)
    ensures s != []
  {
    (if n < 10 then [] else Decimal(n / 10)) + [('0' as int + n % 10) as char]
  }

  predicate AllDigits(s: Bytes) { forall i :: 0 <= i < |s| ==> '0' <= s[i] <= '9' }

  function DecimalValue(s: Bytes): nat
    requires AllDigits(s)
  {
    if s == [] then 0 else DecimalValue(s[..|s| - 1]) * 10 + (s[|s| - 1] - '0') as nat
  }

  function ParseDecimal(s: Bytes): Option<nat> {
    if s != [] && AllDigits(s) then Some(DecimalValue(s)) else None
  }

  lemma DigitAppended(s: Bytes, d: nat)
    requires AllDigits(s) && d < 10
    ensures var t := s + [('0' as int + d) as char]; AllDigits(t) && DecimalValue(t) == DecimalValue(s) * 10 + d
  {
    assert (s + [('0' as int + d) as char])[..|s|] == s;
  }

  lemma {:induction false} DecimalRoundTrip(n: nat)
    ensures ParseDecimal(Decimal(n)) == Some(n)
  {
    if n >= 10 { DecimalRoundTrip(n / 10); }
    DigitAppended(if n < 10 then [] else Decimal(n / 10), n % 10);
  }

  lemma DecimalSpelled()
    ensures Decimal(1234567890) == "1234567890"
  {
    assert Decimal(1) == "1" && Decimal(12) == "12" && Decimal(123) == "123" && Decimal(1234) == "1234" && Decimal(12345) == "12345";
    assert Decimal(123456) == "123456" && Decimal(1234567) == "1234567" && Decimal(12345678) == "12345678" && Decimal(123456789) == "123456789";
  }
}

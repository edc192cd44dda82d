/** Decimal numerals, as Python's `str` writes them. */
module Numerals {

  function Decimal(n: nat): string {
    if n < 10 then [('0' as int + n) as char] else Decimal(n / 10) + [('0' as int + n % 10) as char]
  }

  predicate Digits(s: string) { forall i :: 0 <= i < |s| ==> '0' <= s[i] <= '9' }

  /** The number whose digits `s` lists, most significant first. */
  function Value(s: string): nat
    requires Digits(s)
  {
    if s == [] then 0 else 10 * Value(s[..|s| - 1]) + (s[|s| - 1] as int - '0' as int)
  }

  /** `Decimal(n)` is the one numeral of `n` that has no leading zero. */
  lemma {:induction false} DecimalExactly(n: nat, s: string)
    ensures s == Decimal(n) <==> s != [] && Digits(s) && (s[0] == '0' ==> s == "0") && Value(s) == n
  {
    DecimalDigits(n);
    if s != [] && Digits(s) {
      var rest, digit := s[..|s| - 1], s[|s| - 1] as int - '0' as int;
      assert s == rest + [s[|s| - 1]];
      if rest == [] {
        assert Value(rest) == 0;
      } else {
        assert rest[0] == s[0];
        LastDigit(n, rest, digit);
        DecimalExactly(n / 10, rest);
        if rest[0] != '0' {
          LeadingDigit(rest);
        }
      }
    }
  }

  lemma LastDigit(n: nat, rest: string, digit: nat)
    requires digit < 10 && rest != []
    ensures rest + [('0' as int + digit) as char] == Decimal(n) <==>
            n >= 10 && rest == Decimal(n / 10) && n % 10 == digit
    ensures forall m: nat :: n == 10 * m + digit <==> n / 10 == m && n % 10 == digit
  {
    var s := rest + [('0' as int + digit) as char];
    if n < 10 {
      assert |Decimal(n)| == 1;
    } else {
      var t, c := Decimal(n / 10), ('0' as int + n % 10) as char;
      assert Decimal(n) == t + [c];
      assert (t + [c])[..|t|] == t && s[..|rest|] == rest;
    }
  }

  lemma {:induction false} LeadingDigit(s: string)
    requires s != [] && Digits(s) && s[0] != '0'
    ensures Value(s) > 0
  {
    if |s| > 1 {
      LeadingDigit(s[..|s| - 1]);
    } else {
      assert Value(s[..0]) == 0;
    }
  }

  lemma {:induction false} DecimalDigits(n: nat)
    ensures Decimal(n) != [] && Digits(Decimal(n))
  {
    if n >= 10 {
      DecimalDigits(n / 10);
    }
  }
}

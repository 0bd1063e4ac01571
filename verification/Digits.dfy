/** Positional notation: decimal and hexadecimal text of a natural number. */
module Digits {

  const HEX := "0123456789abcdef"

  function Digit(d: nat): char
    requires d < 16
  {
    HEX[d]
  }

  function DigitValue(c: char): nat {
    if '0' <= c <= '9' then c as nat - '0' as nat
    else if 'a' <= c <= 'f' then c as nat - 'a' as nat + 10
    else 0
  }

  predicate IsBase(base: nat) {
    base == 10 || base == 16
  }

  // n without leading zeros, most significant digit first.
  function Print(n: nat, base: nat): string
    requires IsBase(base)
  {
    if n < base then [Digit(n)] else Print(n / base, base) + [Digit(n % base)]
  }

  function Parse(s: string, base: nat): nat {
    if s == [] then 0 else Parse(s[..|s| - 1], base) * base + DigitValue(s[|s| - 1])
  }

  lemma DigitRoundTrip(d: nat)
    requires d < 16
    ensures DigitValue(Digit(d)) == d
  {
    assert HEX[d] in HEX;
  }

  lemma ParseSnoc(s: string, c: char, base: nat)
    ensures Parse(s + [c], base) == Parse(s, base) * base + DigitValue(c)
  {
    assert (s + [c])[..|s|] == s;
  }

  lemma {:induction false} PrintRoundTrip(n: nat, base: nat)
    requires IsBase(base)
    ensures Parse(Print(n, base), base) == n
  {
    if n < base {
      DigitRoundTrip(n);
      ParseSnoc([], Digit(n), base);
    } else {
      PrintRoundTrip(n / base, base);
      DigitRoundTrip(n % base);
      ParseSnoc(Print(n / base, base), Digit(n % base), base);
    }
  }

  lemma PrintIsInjective(m: nat, n: nat, base: nat)
    requires IsBase(base) && Print(m, base) == Print(n, base)
    ensures m == n
  {
    PrintRoundTrip(m, base);
    PrintRoundTrip(n, base);
  }

  lemma {:induction false} PrintIsDigits(n: nat, base: nat)
    requires IsBase(base)
    ensures forall k :: 0 <= k < |Print(n, base)| ==> Print(n, base)[k] in HEX
  {
    if n >= base { PrintIsDigits(n / base, base); }
  }

  lemma {:induction false} PrintIsDecimal(n: nat)
    ensures Print(n, 10) != [] && forall k :: 0 <= k < |Print(n, 10)| ==> '0' <= Print(n, 10)[k] <= '9'
  {
    if n >= 10 { PrintIsDecimal(n / 10); }
  }

  function Power(base: nat, k: nat): nat {
    if k == 0 then 1 else base * Power(base, k - 1)
  }

  lemma {:induction false} PrintLength(n: nat, base: nat, k: nat)
    requires IsBase(base) && k > 0 && n < Power(base, k)
    ensures |Print(n, base)| <= k
  {
    if n >= base { PrintLength(n / base, base, k - 1); }
  }

  // String.prototype.padStart(width, '0').
  function PadStart(s: string, width: nat): string
    decreases width - |s|
  {
    if |s| >= width then s else PadStart("0" + s, width)
  }

  lemma {:induction false} LeadingZero(s: string, base: nat)
    ensures Parse("0" + s, base) == Parse(s, base)
  {
    if s == [] {
      ParseSnoc([], '0', base);
    } else {
      var front, last := s[..|s| - 1], s[|s| - 1];
      LeadingZero(front, base);
      assert "0" + s == ("0" + front) + [last];
      ParseSnoc("0" + front, last, base);
    }
  }

  lemma {:induction false} PaddedIsDigits(s: string, width: nat)
    requires forall k :: 0 <= k < |s| ==> s[k] in HEX
    ensures forall k :: 0 <= k < |PadStart(s, width)| ==> PadStart(s, width)[k] in HEX
    decreases width - |s|
  {
    if |s| < width {
      assert HEX[0] == '0';
      PaddedIsDigits("0" + s, width);
    }
  }

  lemma {:induction false} PaddedRoundTrip(s: string, width: nat, base: nat)
    ensures Parse(PadStart(s, width), base) == Parse(s, base)
    ensures |PadStart(s, width)| == if |s| >= width then |s| else width
    decreases width - |s|
  {
    if |s| < width {
      PaddedRoundTrip("0" + s, width, base);
      LeadingZero(s, base);
    }
  }
}

/** Decimal text of naturals: `{}` formatting and `str::parse::<usize>`. */
module Decimal {
  import opened Order

  const USIZE_MAX: nat := 0xFFFF_FFFF_FFFF_FFFF

  predicate IsDigit(c: char) {
    '0' <= c <= '9'
  }

  function DigitChar(n: nat): (c: char)
    requires n < 10
    ensures IsDigit(c) && DigitValue(c) == n
  {
    ('0' as int + n) as char
  }

  function DigitValue(c: char): (n: nat)
    requires IsDigit(c)
    ensures n < 10
  {
    c as int - '0' as int
  }

  function Dec(n: nat): (s: string)
    ensures |s| > 0 && AllDigits(s)
  {
    if n < 10 then [DigitChar(n)] else Dec(n / 10) + [DigitChar(n % 10)]
  }

  predicate AllDigits(s: string) {
    forall i :: 0 <= i < |s| ==> IsDigit(s[i])
  }

  function Number(s: string): nat
    requires AllDigits(s)
  {
    if s == [] then 0 else Number(s[..|s| - 1]) * 10 + DigitValue(s[|s| - 1])
  }

  /** An optional `+`, then at least one digit, and no overflow. */
  function ParseUsize(s: string): Option<nat> {
    var digits := if |s| > 0 && s[0] == '+' then s[1..] else s;
    if digits == [] || !AllDigits(digits) || Number(digits) > USIZE_MAX then None
    else Some(Number(digits))
  }

  lemma {:induction false} NumberOfDec(n: nat)
    ensures Number(Dec(n)) == n
  {
    if n >= 10 {
      NumberOfDec(n / 10);
      var s := Dec(n);
      assert s[..|s| - 1] == Dec(n / 10);
    }
  }

  /** A printed number reads back as itself below two to the sixty-fourth, and is refused from there on. */
  lemma ParsePrinted(n: nat)
    ensures ParseUsize(Dec(n)) == if n < 0x1_0000_0000_0000_0000 then Some(n) else None
    ensures ParseUsize("+" + Dec(n)) == ParseUsize(Dec(n))
  {
    NumberOfDec(n);
    assert ("+" + Dec(n))[1..] == Dec(n);
  }

  lemma {:induction false} LeadingZero(s: string)
    requires AllDigits(s)
    ensures Number("0" + s) == Number(s)
  {
    var t := "0" + s;
    if s == "" {
      assert t[..0] == "";
    } else {
      LeadingZero(s[..|s| - 1]);
      assert t[..|t| - 1] == "0" + s[..|s| - 1];
    }
  }

  /** A zero in front changes nothing. */
  lemma ParseWithZero(s: string)
    requires s != "" && AllDigits(s)
    ensures ParseUsize("0" + s) == ParseUsize(s)
  {
    LeadingZero(s);
  }

  lemma DecInjective(m: nat, n: nat)
    requires Dec(m) == Dec(n)
    ensures m == n
  {
    NumberOfDec(m);
    NumberOfDec(n);
  }

  // ----- digits stand in their order

  /** Digit strings of one length compare as the numbers they write. */
  lemma {:induction false} NumbersInOrder(s: string, t: string)
    requires AllDigits(s) && AllDigits(t) && |s| == |t|
    ensures Number(s) <= Number(t) <==> StringLeq(s, t)
    ensures Number(s) == Number(t) <==> s == t
  {
    if s != "" {
      var n := |s| - 1;
      NumbersInOrder(s[..n], t[..n]);
      assert s == s[..n] + [s[n]] && t == t[..n] + [t[n]];
      assert Codes(s) == Codes(s[..n]) + [s[n] as int] && Codes(t) == Codes(t[..n]) + [t[n] as int];
      LexLast(Codes(s[..n]), Codes(t[..n]), s[n] as int, t[n] as int);
      SameCodes(s[..n], t[..n]);
      LastDigitDecides(Number(s[..n]), Number(t[..n]), s[n], t[n]);
    }
  }

  lemma LastDigitDecides(m: nat, n: nat, a: char, b: char)
    requires IsDigit(a) && IsDigit(b)
    ensures m * 10 + DigitValue(a) <= n * 10 + DigitValue(b) <==> m < n || (m == n && a as int <= b as int)
    ensures m * 10 + DigitValue(a) == n * 10 + DigitValue(b) <==> m == n && a == b
  {
  }

  lemma SameCodes(s: string, t: string)
    ensures Codes(s) == Codes(t) <==> s == t
  {
    if Codes(s) == Codes(t) {
      assert forall i :: 0 <= i < |s| ==> Codes(s)[i] == Codes(t)[i];
    }
  }

  lemma {:induction false} DecNotShorter(m: nat, n: nat)
    requires m <= n
    ensures |Dec(m)| <= |Dec(n)|
  {
    if m >= 10 {
      DecNotShorter(m / 10, n / 10);
    }
  }

  /** Decimal text follows the numbers: shorter first, and in dictionary order within one length. */
  lemma DecInOrder(m: nat, n: nat)
    ensures m <= n <==> |Dec(m)| < |Dec(n)| || (|Dec(m)| == |Dec(n)| && StringLeq(Dec(m), Dec(n)))
  {
    NumberOfDec(m);
    NumberOfDec(n);
    if m <= n { DecNotShorter(m, n); } else { DecNotShorter(n, m); }
    if |Dec(m)| == |Dec(n)| { NumbersInOrder(Dec(m), Dec(n)); }
  }
}

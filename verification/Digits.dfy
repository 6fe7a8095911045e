// Positional numerals as the repository prints and reads them: octal tar fields,
// decimal card counts, and the zero-padded fields of a date.
module Digits {

  type Base = b: nat | 2 <= b <= 10 witness 10

  function DigitChar(d: nat): char
    requires d < 10
  {
    '0' + d as char
  }

  predicate IsDigit(c: char, b: Base) {
    '0' <= c && (c as int - '0' as int) < b
  }

  predicate AllDigits(s: string, b: Base) {
    forall i :: 0 <= i < |s| ==> IsDigit(s[i], b)
  }

  function DigitValue(c: char, b: Base): (v: nat)
    requires IsDigit(c, b)
  {
    c as int - '0' as int
  }

  // The shortest numeral for n.
  function ToDigits(n: nat, b: Base): (s: string)
    ensures |s| >= 1 && AllDigits(s, b)
  {
    if n < b then [DigitChar(n)] else ToDigits(n / b, b) + [DigitChar(n % b)]
  }

  function FromDigits(s: string, b: Base): nat
    requires AllDigits(s, b)
  {
    if s == "" then 0
    else FromDigits(s[..|s| - 1], b) * b + DigitValue(s[|s| - 1], b)
  }

  function Pow(b: nat, k: nat): nat {
    if k == 0 then 1 else b * Pow(b, k - 1)
  }

  function Zeros(n: nat): string {
    seq(n, _ => '0')
  }

  // padStart(width, '0'): never shortens.
  function PadStart(s: string, width: nat): (r: string)
    ensures |r| == if |s| < width then width else |s|
  {
    if |s| < width then Zeros(width - |s|) + s else s
  }

  lemma DivMod(n: nat, b: nat)
    requires b > 0
    ensures n / b * b + n % b == n
  {
  }

  lemma MulMono(x: int, y: int, b: nat)
    requires x <= y
    ensures x * b <= y * b
  {
  }

  lemma {:induction false} FromDigitsBound(s: string, b: Base)
    requires AllDigits(s, b)
    ensures FromDigits(s, b) < Pow(b, |s|)
  {
    if s != "" {
      FromDigitsBound(s[..|s| - 1], b);
      var v, p := FromDigits(s[..|s| - 1], b), Pow(b, |s| - 1);
      MulMono(v + 1, p, b);
      assert (v + 1) * b == v * b + b;
    }
  }

  lemma FromDigitsAppend(s: string, c: char, b: Base)
    requires AllDigits(s, b) && IsDigit(c, b)
    ensures AllDigits(s + [c], b)
    ensures FromDigits(s + [c], b) == FromDigits(s, b) * b + DigitValue(c, b)
  {
    assert (s + [c])[..|s + [c]| - 1] == s;
  }

  lemma NoDigits(b: Base)
    ensures FromDigits("", b) * b == 0
  {
  }

  lemma FromOneDigit(c: char, b: Base)
    requires IsDigit(c, b)
    ensures FromDigits([c], b) == DigitValue(c, b)
  {
    NoDigits(b);
    assert [c][..0] == "";
  }

  lemma Quotient(n: nat, b: Base)
    requires n >= b
    ensures 0 < n / b < n && n % b < b
  {
  }

  lemma DigitsFront(n: nat, b: Base)
    requires n >= b
    ensures ToDigits(n, b)[0] == ToDigits(n / b, b)[0]
  {
  }

  lemma {:induction false} FromToDigits(n: nat, b: Base)
    ensures FromDigits(ToDigits(n, b), b) == n
  {
    if n < b {
      FromOneDigit(DigitChar(n), b);
    } else {
      var q, d := n / b, n % b;
      Quotient(n, b);
      FromToDigits(q, b);
      FromDigitsAppend(ToDigits(q, b), DigitChar(d), b);
      DivMod(n, b);
    }
  }

  // A numeral has at most k digits exactly when the number is below b^k.
  lemma {:induction false} LengthBound(n: nat, b: Base, k: nat)
    requires k >= 1
    ensures |ToDigits(n, b)| <= k <==> n < Pow(b, k)
  {
    if n < b {
      PowAtLeast(b, k);
    } else if k == 1 {
      PowOne(b);
    } else {
      LengthBound(n / b, b, k - 1);
      BelowProduct(n, b, Pow(b, k - 1));
    }
  }

  lemma BelowProduct(n: nat, b: nat, p: nat)
    requires b > 0
    ensures n / b < p <==> n < b * p
  {
    DivMod(n, b);
    if n / b < p {
      MulMono(n / b + 1, p, b);
    } else {
      MulMono(p, n / b, b);
    }
  }

  lemma PowOne(b: nat)
    ensures Pow(b, 1) == b
  {
    assert Pow(b, 1) == b * Pow(b, 0) == b * 1;
  }

  lemma {:induction false} PowAtLeast(b: Base, k: nat)
    requires k >= 1
    ensures Pow(b, k) >= b
  {
    if k == 1 {
      PowOne(b);
    } else {
      PowAtLeast(b, k - 1);
      MulMono(1, Pow(b, k - 1), b);
    }
  }

  lemma {:induction false} FromZeros(z: nat, b: Base)
    ensures AllDigits(Zeros(z), b) && FromDigits(Zeros(z), b) == 0
  {
    if z > 0 {
      FromZeros(z - 1, b);
      assert Zeros(z)[..z - 1] == Zeros(z - 1);
    }
  }

  lemma {:induction false} FromDigitsPadded(z: nat, s: string, b: Base)
    requires AllDigits(s, b)
    ensures AllDigits(Zeros(z) + s, b)
    ensures FromDigits(Zeros(z) + s, b) == FromDigits(s, b)
  {
    if s == "" {
      FromZeros(z, b);
      assert Zeros(z) + s == Zeros(z);
    } else {
      var t, c := s[..|s| - 1], s[|s| - 1];
      FromDigitsPadded(z, t, b);
      FromDigitsAppend(Zeros(z) + t, c, b);
      assert (Zeros(z) + t) + [c] == Zeros(z) + s;
    }
  }

  // Reading a padded numeral gives the number back.
  lemma PadRoundTrip(n: nat, b: Base, width: nat)
    ensures AllDigits(PadStart(ToDigits(n, b), width), b)
    ensures FromDigits(PadStart(ToDigits(n, b), width), b) == n
  {
    var s := ToDigits(n, b);
    FromToDigits(n, b);
    if |s| < width {
      FromDigitsPadded(width - |s|, s, b);
    }
  }

  lemma {:induction false} NoLeadingZero(n: nat, b: Base)
    requires n > 0
    ensures ToDigits(n, b)[0] != '0'
  {
    if n >= b {
      Quotient(n, b);
      NoLeadingZero(n / b, b);
      DigitsFront(n, b);
    }
  }
}

/** Decimal text of non-negative integers: `toString`, `BigInt(text)` and `padStart`/`padEnd`. */
module Decimal {

  predicate IsDigit(c: char) {
    '0' <= c <= '9'
  }

  predicate AllDigits(s: string) {
    forall i :: 0 <= i < |s| ==> IsDigit(s[i])
  }

  function DigitChar(d: nat): (c: char)
    requires d < 10
    ensures IsDigit(c) && DigitValue(c) == d
  {
    (48 + d) as char
  }

  function DigitValue(c: char): (d: nat)
    requires IsDigit(c)
    ensures d < 10 && (d == 0 <==> c == '0')
  {
    c as int - 48
  }

  function Print(n: nat): (s: string)
    ensures |s| >= 1 && AllDigits(s)
  {
    if n < 10 then [DigitChar(n)] else Print(n / 10) + [DigitChar(n % 10)]
  }

  function Parse(s: string): nat
    requires AllDigits(s)
  {
    if |s| == 0 then 0 else 10 * Parse(s[..|s| - 1]) + DigitValue(s[|s| - 1])
  }

  function Repeat(c: char, n: nat): (s: string)
    ensures |s| == n && forall i :: 0 <= i < n ==> s[i] == c
  {
    seq(n, _ => c)
  }

  function PadStart(s: string, n: nat, c: char): (r: string)
    ensures |s| >= n ==> r == s
    ensures |s| < n ==> |r| == n
  {
    if |s| >= n then s else Repeat(c, n - |s|) + s
  }

  function PadEnd(s: string, n: nat, c: char): (r: string)
    ensures |s| >= n ==> r == s
    ensures |s| < n ==> |r| == n
  {
    if |s| >= n then s else s + Repeat(c, n - |s|)
  }

  function Pow10(k: nat): (p: nat)
    ensures p >= 1
  {
    if k == 0 then 1 else 10 * Pow10(k - 1)
  }

  lemma {:induction false} PrintParses(n: nat)
    ensures Parse(Print(n)) == n
  {
    if n >= 10 {
      PrintParses(n / 10);
      assert Print(n)[..|Print(n)| - 1] == Print(n / 10);
    }
  }

  lemma {:induction false} NoLeadingZero(n: nat)
    requires n > 0
    ensures Print(n)[0] != '0'
  {
    if n >= 10 {
      NoLeadingZero(n / 10);
    }
  }

  /** Text is what printing its value gives exactly if it has no superfluous leading zero. */
  lemma {:induction false} CanonicalIff(s: string)
    requires AllDigits(s) && |s| > 0
    ensures Print(Parse(s)) == s <==> |s| == 1 || s[0] != '0'
  {
    if |s| == 1 {
      assert s[..0] == [];
      assert s == [s[0]];
    } else {
      var front := s[..|s| - 1];
      CanonicalIff(front);
      if s[0] == '0' {
        if Parse(s) > 0 {
          NoLeadingZero(Parse(s));
        }
      } else {
        assert Parse(front) > 0 by { PositiveValue(front); }
        assert s == front + [s[|s| - 1]];
      }
    }
  }

  lemma {:induction false} PositiveValue(s: string)
    requires AllDigits(s) && |s| > 0 && s[0] != '0'
    ensures Parse(s) > 0
  {
    if |s| > 1 {
      PositiveValue(s[..|s| - 1]);
    }
  }

  lemma TenTimes(x: nat, y: nat)
    ensures 10 * (x * y) == x * (10 * y)
  {
  }

  lemma {:induction false} ParseAppends(a: string, b: string)
    requires AllDigits(a) && AllDigits(b)
    ensures Parse(a + b) == Parse(a) * Pow10(|b|) + Parse(b)
  {
    if |b| == 0 {
      assert a + b == a;
    } else {
      var b' := b[..|b| - 1];
      ParseAppends(a, b');
      assert (a + b)[..|a + b| - 1] == a + b';
      assert Parse(a + b) == 10 * Parse(a + b') + DigitValue(b[|b| - 1]);
      TenTimes(Parse(a), Pow10(|b'|));
    }
  }

  lemma {:induction false} ParseBound(s: string)
    requires AllDigits(s)
    ensures Parse(s) < Pow10(|s|)
  {
    if |s| > 0 {
      ParseBound(s[..|s| - 1]);
    }
  }

  lemma {:induction false} PrintLength(n: nat, k: nat)
    requires n < Pow10(k) && k > 0
    ensures |Print(n)| <= k
  {
    if n >= 10 {
      PrintLength(n / 10, k - 1);
    }
  }

  lemma {:induction false} ZerosParse(n: nat)
    ensures Parse(Repeat('0', n)) == 0
  {
    if n > 0 {
      ZerosParse(n - 1);
      assert Repeat('0', n)[..n - 1] == Repeat('0', n - 1);
    }
  }

  lemma {:induction false} PowAdds(a: nat, b: nat)
    ensures Pow10(a + b) == Pow10(a) * Pow10(b)
  {
    if b > 0 {
      PowAdds(a, b - 1);
      TenTimes(Pow10(a), Pow10(b - 1));
    }
  }

  /** Zero-padding on the left keeps the value. */
  lemma PadStartParses(s: string, n: nat)
    requires AllDigits(s)
    ensures AllDigits(PadStart(s, n, '0')) && Parse(PadStart(s, n, '0')) == Parse(s)
  {
    if |s| < n {
      ZerosParse(n - |s|);
      ParseAppends(Repeat('0', n - |s|), s);
    }
  }

  /** Zero-padding on the right scales it. */
  lemma PadEndParses(s: string, n: nat)
    requires AllDigits(s)
    ensures AllDigits(PadEnd(s, n, '0'))
    ensures |s| <= n ==> Parse(PadEnd(s, n, '0')) == Parse(s) * Pow10(n - |s|)
  {
    if |s| < n {
      ZerosParse(n - |s|);
      ParseAppends(s, Repeat('0', n - |s|));
    }
  }

  /** Text of one length is determined by its value. */
  lemma {:induction false} ParseInjective(a: string, b: string)
    requires AllDigits(a) && AllDigits(b) && |a| == |b| && Parse(a) == Parse(b)
    ensures a == b
  {
    if |a| > 0 {
      ParseInjective(a[..|a| - 1], b[..|b| - 1]);
      assert a == a[..|a| - 1] + [a[|a| - 1]];
      assert b == b[..|b| - 1] + [b[|b| - 1]];
    }
  }
}

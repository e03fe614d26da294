/** Decimal digit strings: JavaScript's rendering of integers in template
    literals, `padStart(2, "0")`, and the code-unit order `<` puts on strings. */
module Decimal {

  predicate IsDigit(c: char) {
    '0' <= c <= '9'
  }

  predicate AllDigits(s: string) {
    forall i :: 0 <= i < |s| ==> IsDigit(s[i])
  }

  function DigitChar(d: nat): (c: char)
    requires d < 10
    ensures IsDigit(c) && c as int - '0' as int == d
  {
    (48 + d) as char
  }

  function DigitValue(c: char): nat
    requires IsDigit(c)
  {
    c as int - '0' as int
  }

  function Pow10(n: nat): (p: nat)
    ensures p >= 1
  {
    if n == 0 then 1 else 10 * Pow10(n - 1)
  }

  /** The number a digit string denotes, leading zeros allowed. */
  function Value(s: string): nat
    requires AllDigits(s)
    decreases |s|
  {
    if |s| == 0 then 0 else Value(s[..|s| - 1]) * 10 + DigitValue(s[|s| - 1])
  }

  /** `${n}` for a non-negative integer: its shortest decimal rendering. */
  function NatToString(n: nat): (r: string)
    ensures |r| >= 1 && AllDigits(r)
    ensures Value(r) == n
    ensures n < Pow10(|r|)
    ensures |r| > 1 ==> r[0] != '0' && Pow10(|r| - 1) <= n
    decreases n
  {
    if n < 10 then [DigitChar(n)]
    else
      var r := NatToString(n / 10) + [DigitChar(n % 10)];
      assert r[..|r| - 1] == NatToString(n / 10);
      r
  }

  /** `${n}` for any integer: a minus sign before the magnitude when negative. */
  function IntToString(n: int): (r: string)
    ensures n >= 0 ==> AllDigits(r) && Value(r) == n
    ensures n < 0 ==> |r| >= 2 && r[0] == '-' && AllDigits(r[1..]) && Value(r[1..]) == -n
  {
    if n < 0 then
      var r := "-" + NatToString(-n);
      assert r[1..] == NatToString(-n);
      r
    else NatToString(n)
  }

  function Repeat(c: char, n: nat): (r: string)
    ensures |r| == n && forall i :: 0 <= i < n ==> r[i] == c
  {
    if n == 0 then [] else [c] + Repeat(c, n - 1)
  }

  /** `s.padStart(width, c)`: `s` with copies of `c` put in front up to `width`. */
  function PadStart(s: string, width: nat, c: char): (r: string)
    ensures |r| == if |s| >= width then |s| else width
    ensures r[|r| - |s|..] == s
    ensures forall i :: 0 <= i < |r| - |s| ==> r[i] == c
  {
    if |s| >= width then s else Repeat(c, width - |s|) + s
  }

  /** The value of a concatenation, digit-wise. */
  lemma {:induction false} ValueAppend(a: string, b: string)
    requires AllDigits(a) && AllDigits(b)
    ensures AllDigits(a + b)
    ensures Value(a + b) == Value(a) * Pow10(|b|) + Value(b)
    decreases |b|
  {
    if |b| > 0 {
      var b' := b[..|b| - 1];
      var c := DigitValue(b[|b| - 1]);
      assert (a + b)[..|a + b| - 1] == a + b';
      assert (a + b)[|a + b| - 1] == b[|b| - 1];
      ValueAppend(a, b');
      var va, p, vb' := Value(a), Pow10(|b'|), Value(b');
      assert Value(a + b) == (va * p + vb') * 10 + c;
      assert Value(b) == vb' * 10 + c;
      assert Pow10(|b|) == 10 * p;
      ShiftPlace(va, p, vb', c);
    } else {
      assert a + b == a;
    }
  }

  lemma ShiftPlace(va: nat, p: nat, vb: nat, c: nat)
    ensures (va * p + vb) * 10 + c == va * (10 * p) + (vb * 10 + c)
  {
  }

  lemma {:induction false} ValueBound(s: string)
    requires AllDigits(s)
    ensures Value(s) < Pow10(|s|)
    decreases |s|
  {
    if |s| > 0 {
      ValueBound(s[..|s| - 1]);
    }
  }

  /** Zero padding does not change the number a digit string denotes. */
  lemma ZeroPadValue(s: string, width: nat)
    requires AllDigits(s)
    ensures AllDigits(PadStart(s, width, '0'))
    ensures Value(PadStart(s, width, '0')) == Value(s)
  {
    if |s| < width {
      var z := Repeat('0', width - |s|);
      ZerosValue(width - |s|);
      ValueAppend(z, s);
    }
  }

  lemma {:induction false} ZerosValue(n: nat)
    ensures AllDigits(Repeat('0', n)) && Value(Repeat('0', n)) == 0
    decreases n
  {
    if n > 0 {
      ZerosValue(n - 1);
      ValueAppend(['0'], Repeat('0', n - 1));
      assert ['0'] + Repeat('0', n - 1) == Repeat('0', n);
      assert ['0'][..0] == [];
    }
  }

  /** JavaScript's `a < b` on strings: lexicographic by code unit, a proper
      prefix coming first. (For the ASCII characters used below code points
      and UTF-16 code units agree.) */
  predicate LexLess(a: string, b: string)
    decreases |a|
  {
    if |a| == 0 then |b| > 0
    else if |b| == 0 then false
    else a[0] < b[0] || (a[0] == b[0] && LexLess(a[1..], b[1..]))
  }

  /** For digit strings of one length, string order is numeric order. */
  lemma {:induction false} LexLessDigits(a: string, b: string)
    requires AllDigits(a) && AllDigits(b) && |a| == |b|
    requires Value(a) < Value(b)
    ensures LexLess(a, b)
    decreases |a|
  {
    if a[0] == b[0] {
      LeadingDigit(a);
      LeadingDigit(b);
      LexLessDigits(a[1..], b[1..]);
    } else if a[0] > b[0] {
      LeadingDigit(a);
      LeadingDigit(b);
      PlaceValueOrder(DigitValue(b[0]), DigitValue(a[0]), Pow10(|a| - 1), Value(b[1..]), Value(a[1..]));
      assert false;
    }
  }

  /** A non-empty digit string is its leading digit's place value plus the rest. */
  lemma LeadingDigit(s: string)
    requires AllDigits(s) && |s| > 0
    ensures AllDigits(s[1..])
    ensures Value(s) == DigitValue(s[0]) * Pow10(|s| - 1) + Value(s[1..])
    ensures Value(s[1..]) < Pow10(|s| - 1)
  {
    var h, t := [s[0]], s[1..];
    assert s == h + t;
    assert h[..0] == [];
    assert Value(h) == DigitValue(s[0]);
    ValueAppend(h, t);
    ValueBound(t);
  }

  /** A smaller leading digit wins whatever the lower places hold. */
  lemma PlaceValueOrder(y: nat, x: nat, p: nat, vy: nat, vx: nat)
    requires y < x && vy < p
    ensures y * p + vy < x * p + vx
  {
    var d := x - y;
    MulDistrib(y, d, p);
    MulAtLeast(d, p);
  }

  lemma MulDistrib(a: nat, b: nat, p: nat)
    ensures (a + b) * p == a * p + b * p
  {
  }

  lemma {:induction false} MulAtLeast(d: nat, p: nat)
    requires d >= 1
    ensures d * p >= p
    decreases d
  {
    if d > 1 {
      MulAtLeast(d - 1, p);
      MulDistrib(d - 1, 1, p);
    }
  }

  /** A common prefix and same-length differing parts decide the order,
      whatever follows. */
  lemma {:induction false} LexLessFrame(p: string, a: string, b: string, sa: string, sb: string)
    requires |a| == |b| && LexLess(a, b)
    ensures LexLess(p + a + sa, p + b + sb)
    decreases |p| + |a|
  {
    if |p| > 0 {
      assert (p + a + sa)[1..] == p[1..] + a + sa;
      assert (p + b + sb)[1..] == p[1..] + b + sb;
      LexLessFrame(p[1..], a, b, sa, sb);
    } else {
      assert p + a + sa == a + sa && p + b + sb == b + sb;
      if a[0] == b[0] && !(a[0] < b[0]) {
        assert (a + sa)[1..] == a[1..] + sa;
        assert (b + sb)[1..] == b[1..] + sb;
        LexLessFrame([], a[1..], b[1..], sa, sb);
        assert [] + a[1..] + sa == a[1..] + sa;
        assert [] + b[1..] + sb == b[1..] + sb;
      }
    }
  }
}

/** The few Python string operations the revenue lookup relies on: `<` and
    `<=` between strings, `str.upper` on ticker symbols, `str(int)` and
    `str.zfill`. */
module Text {

  // ---------------------------------------------------------------------
  // String order. Python compares strings lexicographically, character by
  // character on code points, and a proper prefix sorts first. Dafny's own
  // `<` on sequences means "proper prefix", so the order is spelled out.
  // ---------------------------------------------------------------------

  /** Python's `a < b` on two strings. */
  predicate StrLess(a: string, b: string)
    decreases |a|
  {
    if a == [] then b != []
    else b != [] && (a[0] < b[0] || (a[0] == b[0] && StrLess(a[1..], b[1..])))
  }

  /** Python's `a <= b` on two strings. */
  predicate StrLessEq(a: string, b: string) {
    a == b || StrLess(a, b)
  }

  lemma {:induction false} StrLessIrreflexive(a: string)
    ensures !StrLess(a, a)
  {
    if a != [] {
      StrLessIrreflexive(a[1..]);
    }
  }

  lemma {:induction false} StrLessTransitive(a: string, b: string, c: string)
    requires StrLess(a, b) && StrLess(b, c)
    ensures StrLess(a, c)
  {
    if a != [] && a[0] == b[0] && b[0] == c[0] {
      StrLessTransitive(a[1..], b[1..], c[1..]);
    }
  }

  lemma StrLessAsymmetric(a: string, b: string)
    requires StrLess(a, b)
    ensures !StrLess(b, a)
  {
    if StrLess(b, a) {
      StrLessTransitive(a, b, a);
      StrLessIrreflexive(a);
    }
  }

  /** Any two strings are comparable: the order is total. */
  lemma {:induction false} StrLessTotal(a: string, b: string)
    ensures StrLess(a, b) || a == b || StrLess(b, a)
  {
    if a != [] && b != [] && a[0] == b[0] {
      StrLessTotal(a[1..], b[1..]);
      if a[1..] == b[1..] {
        assert a == [a[0]] + a[1..] && b == [b[0]] + b[1..];
      }
    }
  }

  /** `<=` is the complement of the converse `<`. */
  lemma StrLessEqIsNotGreater(a: string, b: string)
    ensures StrLessEq(a, b) <==> !StrLess(b, a)
  {
    StrLessTotal(a, b);
    if StrLess(a, b) {
      StrLessAsymmetric(a, b);
    } else if a == b {
      StrLessIrreflexive(a);
    }
  }

  lemma StrLessEqTransitive(a: string, b: string, c: string)
    requires StrLessEq(a, b) && StrLessEq(b, c)
    ensures StrLessEq(a, c)
  {
    if StrLess(a, b) && StrLess(b, c) {
      StrLessTransitive(a, b, c);
    }
  }

  /** Comparing two concatenations whose first parts have equal length
      compares the first parts, and the second parts only on a tie. */
  lemma {:induction false} StrLessConcat(p: string, q: string, p': string, q': string)
    requires |p| == |p'|
    ensures StrLess(p + q, p' + q') <==> StrLess(p, p') || (p == p' && StrLess(q, q'))
  {
    if p == [] {
      assert p + q == q && p' + q' == q';
    } else {
      assert (p + q)[1..] == p[1..] + q;
      assert (p' + q')[1..] == p'[1..] + q';
      StrLessConcat(p[1..], q, p'[1..], q');
      if p[0] == p'[0] && p[1..] == p'[1..] {
        assert p == [p[0]] + p[1..] && p' == [p'[0]] + p'[1..];
      }
    }
  }

  // ---------------------------------------------------------------------
  // Decimal digits.
  // ---------------------------------------------------------------------

  predicate IsDigit(c: char) {
    '0' <= c <= '9'
  }

  predicate IsDigits(s: string) {
    forall i :: 0 <= i < |s| ==> IsDigit(s[i])
  }

  function DigitValue(c: char): (d: nat)
    requires IsDigit(c)
  {
    c as int - '0' as int
  }

  function DigitChar(d: nat): (c: char)
    requires d < 10
    ensures IsDigit(c) && DigitValue(c) == d
  {
    ('0' as int + d) as char
  }

  function Pow10(n: nat): (p: nat)
    ensures p >= 1
  {
    if n == 0 then 1 else 10 * Pow10(n - 1)
  }

  /** The number a string of decimal digits denotes, leading zeros allowed. */
  function Num(s: string): (n: nat)
    requires IsDigits(s)
  {
    if s == [] then 0 else Num(s[..|s| - 1]) * 10 + DigitValue(s[|s| - 1])
  }

  lemma {:induction false} NumBound(s: string)
    requires IsDigits(s)
    ensures Num(s) < Pow10(|s|)
  {
    if s != [] {
      NumBound(s[..|s| - 1]);
    }
  }

  /** The same number, read from the most significant digit. */
  lemma {:induction false} NumFront(s: string)
    requires IsDigits(s) && s != []
    ensures Num(s) == DigitValue(s[0]) * Pow10(|s| - 1) + Num(s[1..])
  {
    if |s| > 1 {
      var init, tail := s[..|s| - 1], s[1..];
      NumFront(init);
      assert init[1..] == tail[..|tail| - 1];
      var d, p, r, e := DigitValue(s[0]), Pow10(|s| - 2), Num(init[1..]), DigitValue(s[|s| - 1]);
      assert Num(s) == (d * p + r) * 10 + e;
      assert Num(tail) == r * 10 + e;
      assert Pow10(|s| - 1) == 10 * p;
      ShiftPlace(d, p, r, e);
    } else {
      assert s[..0] == [] && s[1..] == [];
    }
  }

  lemma ShiftPlace(d: int, p: int, r: int, e: int)
    ensures (d * p + r) * 10 + e == d * (10 * p) + (r * 10 + e)
  {
  }

  /** Comparing two numbers written with the same place value `p` for
      their leading digit. */
  lemma PlaceValueOrder(x: nat, r: nat, y: nat, t: nat, p: nat)
    requires r < p && t < p
    ensures x * p + r < y * p + t <==> x < y || (x == y && r < t)
    ensures x * p + r == y * p + t <==> x == y && r == t
  {
    if x < y {
      MulMonotone(x + 1, y, p);
    } else if y < x {
      MulMonotone(y + 1, x, p);
    }
  }

  lemma MulMonotone(x: nat, y: nat, p: nat)
    requires x <= y
    ensures x * p <= y * p
  {
  }

  /** On digit strings of one length, string order is numeric order, and
      equal numbers mean equal strings. */
  lemma {:induction false} DigitsOrder(a: string, b: string)
    requires IsDigits(a) && IsDigits(b) && |a| == |b|
    ensures StrLess(a, b) <==> Num(a) < Num(b)
    ensures Num(a) == Num(b) <==> a == b
  {
    if a != [] {
      NumFront(a);
      NumFront(b);
      NumBound(a[1..]);
      NumBound(b[1..]);
      DigitsOrder(a[1..], b[1..]);
      PlaceValueOrder(DigitValue(a[0]), Num(a[1..]), DigitValue(b[0]), Num(b[1..]), Pow10(|a| - 1));
      if a[0] == b[0] && a[1..] == b[1..] {
        assert a == [a[0]] + a[1..] && b == [b[0]] + b[1..];
      }
    }
  }

  /** Leading zeros do not change the number. */
  lemma {:induction false} NumLeadingZeros(z: string, d: string)
    requires IsDigits(d) && forall i :: 0 <= i < |z| ==> z[i] == '0'
    ensures IsDigits(z + d) && Num(z + d) == Num(d)
  {
    if d == [] {
      assert z + d == z;
      ZerosAreZero(z);
    } else {
      var init := d[..|d| - 1];
      assert (z + d)[..|z + d| - 1] == z + init;
      NumLeadingZeros(z, init);
    }
  }

  lemma {:induction false} ZerosAreZero(z: string)
    requires forall i :: 0 <= i < |z| ==> z[i] == '0'
    ensures IsDigits(z) && Num(z) == 0
  {
    if z != [] {
      ZerosAreZero(z[..|z| - 1]);
    }
  }

  /** Python's `str(n)` for a non-negative integer: its decimal digits, with
      no leading zero except in "0" itself. */
  function Decimal(n: nat): (r: string)
    ensures IsDigits(r) && |r| >= 1
    ensures Num(r) == n
    ensures r[0] == '0' ==> r == "0"
  {
    if n < 10 then [DigitChar(n)]
    else
      var s := Decimal(n / 10);
      var r := s + [DigitChar(n % 10)];
      assert r[..|r| - 1] == s;
      r
  }

  /** A digit string without a superfluous leading zero has as many digits
      as its number needs. */
  lemma {:induction false} CanonicalLength(s: string)
    requires IsDigits(s) && |s| >= 1 && (s[0] == '0' ==> |s| == 1)
    ensures |s| == 1 || Pow10(|s| - 1) <= Num(s)
  {
    if |s| > 1 {
      NumFront(s);
      MulMonotone(1, DigitValue(s[0]), Pow10(|s| - 1));
    }
  }

  /** `str(n)` is the only canonical digit string for `n`, so `Decimal` is
      pinned down by its contract. */
  lemma DecimalUnique(s: string)
    requires IsDigits(s) && |s| >= 1 && (s[0] == '0' ==> |s| == 1)
    ensures s == Decimal(Num(s))
  {
    var d := Decimal(Num(s));
    assert IsDigits(d) && |d| >= 1 && Num(d) == Num(s);
    assert d[0] == '0' ==> |d| == 1;
    SameNumSameLength(s, d);
    DigitsOrder(s, d);
  }

  lemma SameNumSameLength(s: string, d: string)
    requires IsDigits(s) && |s| >= 1 && (s[0] == '0' ==> |s| == 1)
    requires IsDigits(d) && |d| >= 1 && (d[0] == '0' ==> |d| == 1)
    requires Num(s) == Num(d)
    ensures |s| == |d|
  {
    CanonicalLength(s);
    CanonicalLength(d);
    NumBound(s);
    NumBound(d);
    Pow10Monotone(|s|, |d| - 1);
    Pow10Monotone(|d|, |s| - 1);
  }

  lemma {:induction false} Pow10Monotone(m: nat, n: int)
    ensures m <= n ==> Pow10(m) <= Pow10(n)
  {
    if m < n {
      Pow10Monotone(m, n - 1);
    }
  }

  /** Python's `str(n)` for any integer. */
  function IntToString(n: int): (r: string)
    ensures n >= 0 ==> IsDigits(r) && |r| >= 1 && Num(r) == n && (r[0] == '0' ==> r == "0")
    ensures n < 0 ==> |r| >= 2 && r[0] == '-' && IsDigits(r[1..]) && Num(r[1..]) == -n && r[1] != '0'
  {
    if n < 0 then "-" + Decimal(-n) else Decimal(n)
  }

  // ---------------------------------------------------------------------
  // Padding.
  // ---------------------------------------------------------------------

  function Zeros(k: nat): (r: string)
    ensures |r| == k && forall i :: 0 <= i < k ==> r[i] == '0'
  {
    seq(k, _ => '0')
  }

  predicate HasSign(s: string) {
    s != [] && (s[0] == '+' || s[0] == '-')
  }

  /** Python's `s.zfill(width)`: left-pad with '0' up to `width`, keeping a
      leading sign in front of the padding; a string already that long is
      returned unchanged. */
  function ZFill(s: string, width: nat): (r: string)
    ensures |r| == if |s| >= width then |s| else width
    ensures |s| >= width ==> r == s
    ensures |s| < width && !HasSign(s) ==>
      r[width - |s|..] == s && forall i :: 0 <= i < width - |s| ==> r[i] == '0'
    ensures |s| < width && HasSign(s) ==>
      r[0] == s[0] && r[width - |s| + 1..] == s[1..] &&
      forall i :: 1 <= i <= width - |s| ==> r[i] == '0'
  {
    if |s| >= width then s
    else if HasSign(s) then [s[0]] + Zeros(width - |s|) + s[1..]
    else Zeros(width - |s|) + s
  }

  // ---------------------------------------------------------------------
  // Upper case.
  // ---------------------------------------------------------------------

  predicate IsAsciiLower(c: char) {
    'a' <= c <= 'z'
  }

  function UpperChar(c: char): (u: char)
    ensures !IsAsciiLower(u)
    ensures IsAsciiLower(c) ==> u as int == c as int - 32
    ensures !IsAsciiLower(c) ==> u == c
  {
    if IsAsciiLower(c) then (c as int - 32) as char else c
  }

  /** Python's `s.upper()` on ASCII text. */
  function AsciiUpper(s: string): (r: string)
    ensures |r| == |s|
    ensures forall i :: 0 <= i < |s| ==> r[i] == UpperChar(s[i])
  {
    seq(|s|, i requires 0 <= i < |s| => UpperChar(s[i]))
  }

  /** Upper-casing twice changes nothing more than upper-casing once. */
  lemma AsciiUpperIdempotent(s: string)
    ensures AsciiUpper(AsciiUpper(s)) == AsciiUpper(s)
  {
  }
}

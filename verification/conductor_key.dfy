/** The conductor sort key: the floor of the decimal logarithm of the
    conductor, zero-padded to four digits, followed by the conductor in
    decimal. For positive conductors of at most 10000 digits the keys sort
    as strings exactly as the conductors sort as numbers. */
module ConductorKey {
  import opened Strings

  function Pow10(n: nat): (r: nat)
    ensures r >= 1
  {
    if n == 0 then 1 else 10 * Pow10(n - 1)
  }

  function DigitChar(d: nat): (c: char)
    requires d < 10
    ensures IsDigit(c)
  {
    ('0' as int + d) as char
  }

  function DigitOf(c: char): (d: nat)
    requires IsDigit(c)
    ensures d < 10
  {
    c as int - '0' as int
  }

  /** `str(n)` for a non-negative integer. */
  function Decimal(n: nat): (s: string)
    ensures |s| >= 1 && forall i :: 0 <= i < |s| ==> IsDigit(s[i])
  {
    if n < 10 then [DigitChar(n)] else Decimal(n / 10) + [DigitChar(n % 10)]
  }

  /** `str(d)` for any integer. */
  function IntToString(d: int): string {
    if d < 0 then "-" + Decimal(-d) else Decimal(d)
  }

  /** The value of a string of decimal digits, leading zeros allowed. */
  function DigitsValue(s: string): nat
    requires forall i :: 0 <= i < |s| ==> IsDigit(s[i])
  {
    if |s| == 0 then 0 else DigitOf(s[0]) * Pow10(|s| - 1) + DigitsValue(s[1..])
  }

  /** Python's `<` on strings: lexicographic, a proper prefix first. */
  predicate StringLess(x: string, y: string) {
    |y| > 0 && (|x| == 0 || x[0] < y[0] || (x[0] == y[0] && StringLess(x[1..], y[1..])))
  }

  /** `int(ZZ(max(d, 1)).log(10))`: the exponent of the largest power of ten
      not above the conductor, conductors below 1 counting as 1. */
  function Log10Floor(d: int): (e: nat)
    ensures Pow10(e) <= (if d < 1 then 1 else d) < Pow10(e + 1)
  {
    var x := if d < 1 then 1 else d;
    DecimalBounds(x);
    |Decimal(x)| - 1
  }

  function Zeros(k: nat): (s: string)
    ensures |s| == k && forall i :: 0 <= i < k ==> s[i] == '0'
  {
    seq(k, _ => '0')
  }

  /** `'%04d' % n`: at least four digits, padded with zeros on the left. */
  function ZeroPad4(n: nat): (s: string)
    ensures |s| == (if |Decimal(n)| < 4 then 4 else |Decimal(n)|)
    ensures forall i :: 0 <= i < |s| ==> IsDigit(s[i])
    ensures DigitsValue(s) == n
  {
    var t := Decimal(n);
    DecimalValue(n);
    if |t| < 4 then
      LeadingZeros(4 - |t|, t);
      Zeros(4 - |t|) + t
    else t
  }

  /** `make_cond_key(d)`. */
  function CondKey(d: int): (key: string)
    ensures d < 1 ==> key == "0000" + IntToString(d)
    ensures 1 <= d && |Decimal(d)| <= 10000 ==>
              && |key| == 4 + |Decimal(d)|
              && (forall i :: 0 <= i < 4 ==> IsDigit(key[i]))
              && Pow10(DigitsValue(key[..4])) <= d < Pow10(DigitsValue(key[..4]) + 1)
              && key[4..] == Decimal(d)
  {
    PadOfSmallExponent(d);
    ZeroPad4(Log10Floor(d)) + IntToString(d)
  }

  /** For a conductor of at most 10000 digits the exponent has at most four
      digits, so its padding is exactly four characters. */
  lemma PadOfSmallExponent(d: int)
    ensures 1 <= d && |Decimal(d)| <= 10000 ==> |ZeroPad4(Log10Floor(d))| == 4
  {
    if 1 <= d && |Decimal(d)| <= 10000 {
      var e := Log10Floor(d);
      assert e < 10000;
      assert Pow10(4) == 10000;
      DecimalLength(e, 4);
    }
  }

  lemma {:induction false} Pow10Monotone(i: nat, j: nat)
    requires i <= j
    ensures Pow10(i) <= Pow10(j)
  {
    if i < j {
      Pow10Monotone(i, j - 1);
    }
  }

  /** Appending a digit multiplies the value by ten and adds the digit. */
  lemma {:induction false} DigitsValueSnoc(s: string, c: char)
    requires forall i :: 0 <= i < |s| ==> IsDigit(s[i])
    requires IsDigit(c)
    ensures DigitsValue(s + [c]) == 10 * DigitsValue(s) + DigitOf(c)
  {
    if |s| > 0 {
      assert (s + [c])[1..] == s[1..] + [c];
      DigitsValueSnoc(s[1..], c);
      var p := Pow10(|s| - 1);
      assert DigitOf(s[0]) * (10 * p) == 10 * (DigitOf(s[0]) * p);
    }
  }

  /** `str` writes the value it is given. */
  lemma {:induction false} DecimalValue(n: nat)
    ensures DigitsValue(Decimal(n)) == n
  {
    if n >= 10 {
      DecimalValue(n / 10);
      DigitsValueSnoc(Decimal(n / 10), DigitChar(n % 10));
    }
  }

  /** A positive number written with k digits lies in [10^(k-1), 10^k). */
  lemma {:induction false} DecimalBounds(n: nat)
    requires n >= 1
    ensures Pow10(|Decimal(n)| - 1) <= n < Pow10(|Decimal(n)|)
  {
    if n >= 10 {
      DecimalBounds(n / 10);
    }
  }

  /** A number below 10^k has at most k digits. */
  lemma {:induction false} DecimalLength(n: nat, k: nat)
    requires k >= 1 && n < Pow10(k)
    ensures |Decimal(n)| <= k
  {
    if n >= 10 {
      assert k >= 2;
      DecimalLength(n / 10, k - 1);
    }
  }

  /** Zeros on the left do not change the value. */
  lemma {:induction false} LeadingZeros(k: nat, t: string)
    requires forall i :: 0 <= i < |t| ==> IsDigit(t[i])
    ensures DigitsValue(Zeros(k) + t) == DigitsValue(t)
  {
    if k == 0 {
      assert Zeros(k) + t == t;
    } else {
      var z := Zeros(k) + t;
      assert z[1..] == Zeros(k - 1) + t;
      LeadingZeros(k - 1, t);
      assert DigitOf(z[0]) == 0;
      assert DigitsValue(z) == 0 * Pow10(|z| - 1) + DigitsValue(z[1..]);
    }
  }

  /** A k-digit string has value below 10^k. */
  lemma {:induction false} DigitsValueBound(s: string)
    requires forall i :: 0 <= i < |s| ==> IsDigit(s[i])
    ensures DigitsValue(s) < Pow10(|s|)
  {
    if |s| > 0 {
      DigitsValueBound(s[1..]);
      var d, p := DigitOf(s[0]), Pow10(|s| - 1);
      assert DigitsValue(s) == d * p + DigitsValue(s[1..]);
      MultiplyMonotone(d + 1, 10, p);
      assert (d + 1) * p == d * p + p;
      assert Pow10(|s|) == 10 * p;
    }
  }

  lemma MultiplyMonotone(a: nat, b: nat, p: nat)
    requires a <= b
    ensures a * p <= b * p
  {
  }

  /** A smaller leading digit gives a smaller number, whatever follows. */
  lemma LeadingDigitDecides(a: nat, b: nat, p: nat, ra: nat, rb: nat)
    requires a < b && ra < p
    ensures a * p + ra < b * p + rb
  {
    MultiplyMonotone(a + 1, b, p);
    assert (a + 1) * p == a * p + p;
  }

  /** For digit strings of the same length, string order is numeric order. */
  lemma {:induction false} StringLessIsNumeric(x: string, y: string)
    requires |x| == |y|
    requires forall i :: 0 <= i < |x| ==> IsDigit(x[i])
    requires forall i :: 0 <= i < |y| ==> IsDigit(y[i])
    ensures StringLess(x, y) <==> DigitsValue(x) < DigitsValue(y)
  {
    if |x| > 0 {
      StringLessIsNumeric(x[1..], y[1..]);
      DigitsValueBound(x[1..]);
      DigitsValueBound(y[1..]);
      var p := Pow10(|x| - 1);
      var dx, dy := DigitOf(x[0]), DigitOf(y[0]);
      assert DigitsValue(x) == dx * p + DigitsValue(x[1..]);
      assert DigitsValue(y) == dy * p + DigitsValue(y[1..]);
      assert x[0] < y[0] <==> dx < dy;
      if dx < dy {
        LeadingDigitDecides(dx, dy, p, DigitsValue(x[1..]), DigitsValue(y[1..]));
      } else if dx > dy {
        LeadingDigitDecides(dy, dx, p, DigitsValue(y[1..]), DigitsValue(x[1..]));
      }
    }
  }

  /** Comparing two strings with prefixes of equal length compares the
      prefixes first and the rests only on a tie. */
  lemma {:induction false} StringLessAppend(x: string, u: string, y: string, v: string)
    requires |x| == |y|
    ensures StringLess(x + u, y + v) <==> StringLess(x, y) || (x == y && StringLess(u, v))
  {
    if |x| == 0 {
      assert x + u == u && y + v == v && x == y;
    } else {
      assert (x + u)[0] == x[0] && (y + v)[0] == y[0];
      assert (x + u)[1..] == x[1..] + u;
      assert (y + v)[1..] == y[1..] + v;
      StringLessAppend(x[1..], u, y[1..], v);
      assert x == y <==> x[0] == y[0] && x[1..] == y[1..] by {
        if x[0] == y[0] && x[1..] == y[1..] {
          assert x == [x[0]] + x[1..] && y == [y[0]] + y[1..];
        }
      }
    }
  }

  /** Sorting conductors by key sorts them by size: for positive conductors
      of at most 10000 digits, one key is less than another exactly when its
      conductor is smaller. */
  lemma CondKeyOrder(a: int, b: int)
    requires 1 <= a && |Decimal(a)| <= 10000
    requires 1 <= b && |Decimal(b)| <= 10000
    ensures a < b <==> StringLess(CondKey(a), CondKey(b))
  {
    var ea, eb := Log10Floor(a), Log10Floor(b);
    var pa, pb := ZeroPad4(ea), ZeroPad4(eb);
    PadOfSmallExponent(a);
    PadOfSmallExponent(b);
    StringLessAppend(pa, Decimal(a), pb, Decimal(b));
    StringLessIsNumeric(pa, pb);
    if ea < eb {
      Pow10Monotone(ea + 1, eb);
    } else if eb < ea {
      Pow10Monotone(eb + 1, ea);
    } else {
      StringLessIsNumeric(Decimal(a), Decimal(b));
      DecimalValue(a);
      DecimalValue(b);
    }
  }
}

/** Decimal text: its value, its canonical spelling, and why comparing canonical digits by length and
    then as text is comparing the numbers. */
module Decimal {
  import opened Order

  const ZERO: nat := 48

  predicate IsDigit(c: nat) { ZERO <= c <= ZERO + 9 }

  predicate Digits(t: Text) { forall i | 0 <= i < |t| :: IsDigit(t[i]) }

  /** `/^\d+$/` */
  predicate IsNumeric(t: Text) { |t| > 0 && Digits(t) }

  /** Digits without a leading zero. */
  predicate IsCanonical(t: Text) { IsNumeric(t) && (|t| > 1 ==> t[0] != ZERO) }

  function Pow10(n: nat): (p: nat)
    ensures p >= 1
  {
    if n == 0 then 1 else 10 * Pow10(n - 1)
  }

  function Value(t: Text): nat
    requires Digits(t)
  {
    if |t| == 0 then 0 else 10 * Value(t[..|t| - 1]) + (t[|t| - 1] - ZERO)
  }

  /** `String(n)` */
  function Render(n: nat): (t: Text)
    ensures IsNumeric(t)
    decreases n
  {
    if n < 10 then [ZERO + n] else Render(n / 10) + [ZERO + n % 10]
  }

  lemma {:induction false} ValueBounds(t: Text)
    requires Digits(t)
    ensures Value(t) < Pow10(|t|)
    ensures |t| > 0 && t[0] != ZERO ==> Value(t) >= Pow10(|t| - 1)
  {
    if |t| > 0 { ValueBounds(t[..|t| - 1]); }
  }

  lemma {:induction false} Pow10Monotone(m: nat, n: nat)
    requires m <= n
    ensures Pow10(m) <= Pow10(n)
    decreases n - m
  {
    if m < n { Pow10Monotone(m, n - 1); }
  }

  /** Same number of digits: text order is numeric order. */
  lemma {:induction false} SameLengthOrder(a: Text, b: Text)
    requires |a| == |b| && Digits(a) && Digits(b)
    ensures TextLess(a, b) <==> Value(a) < Value(b)
    ensures a == b <==> Value(a) == Value(b)
  {
    if |a| > 0 {
      var n := |a| - 1;
      SameLengthOrder(a[..n], b[..n]);
      TextAppend(a[..n], b[..n], [a[n]], [b[n]]);
      assert a == a[..n] + [a[n]] && b == b[..n] + [b[n]];
    }
  }

  /** Canonical digits compared by length and then as text compare as numbers. */
  lemma LengthThenText(a: Text, b: Text)
    requires IsCanonical(a) && IsCanonical(b)
    ensures Value(a) < Value(b) <==> |a| < |b| || (|a| == |b| && TextLess(a, b))
    ensures Value(a) == Value(b) <==> a == b
  {
    if |a| == |b| {
      SameLengthOrder(a, b);
    } else if |a| < |b| {
      ShorterIsLess(a, b);
    } else {
      ShorterIsLess(b, a);
    }
  }

  lemma ShorterIsLess(a: Text, b: Text)
    requires IsCanonical(a) && IsCanonical(b) && |a| < |b|
    ensures Value(a) < Value(b)
  {
    ValueBounds(a);
    ValueBounds(b);
    Pow10Monotone(|a|, |b| - 1);
  }

  /** Each digit counts ten times the one behind it, from '0' as nothing to '9' as nine. */
  lemma ValueMeans(t: Text, d: nat)
    ensures Digits(t + [d]) <==> Digits(t) && 48 <= d <= 57
    ensures Digits([]) && Value([]) == 0
    ensures Digits(t) && 48 <= d <= 57 ==> Value(t + [d]) == 10 * Value(t) + d - 48
  {
    assert (t + [d])[..|t|] == t && (t + [d])[|t|] == d;
    assert Digits(t + [d]) ==> forall i | 0 <= i < |t| :: (t + [d])[i] == t[i];
  }

  /** Reading back what `String(n)` wrote. */
  lemma {:induction false} RenderValue(n: nat)
    ensures Value(Render(n)) == n
  {
    if n >= 10 {
      RenderValue(n / 10);
      assert Render(n)[..|Render(n)| - 1] == Render(n / 10);
    }
  }

  lemma {:induction false} RenderCanonical(n: nat)
    ensures IsCanonical(Render(n)) && (n > 0 ==> Render(n)[0] != ZERO)
  {
    if n >= 10 { RenderCanonical(n / 10); }
  }

  function Padding(k: nat): (p: Text)
    ensures |p| == k && Digits(p)
  {
    seq(k, _ => ZERO)
  }

  lemma {:induction false} PaddingValue(t: Text, k: nat)
    requires Digits(t)
    ensures Digits(Padding(k) + t) && Value(Padding(k) + t) == Value(t)
  {
    var p := Padding(k) + t;
    if |t| > 0 {
      PaddingValue(t[..|t| - 1], k);
      assert p[..|p| - 1] == Padding(k) + t[..|t| - 1];
    } else if k > 0 {
      PaddingValue([], k - 1);
      assert p[..|p| - 1] == Padding(k - 1) + [];
    }
  }
}

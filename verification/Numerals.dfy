/** Positional numbers. */
module Numerals {
  /** The number that digits, most significant first, denote. */
  function Value(ds: seq<int>, base: int): int {
    if ds == [] then 0 else Value(ds[..|ds| - 1], base) * base + ds[|ds| - 1]
  }

  lemma {:induction false} ValueNonNegative(ds: seq<int>, base: int)
    requires base >= 0 && forall k :: 0 <= k < |ds| ==> 0 <= ds[k]
    ensures Value(ds, base) >= 0
  {
    if ds != [] {
      ValueNonNegative(ds[..|ds| - 1], base);
    }
  }

  lemma {:induction false} ValueZeros(zeros: seq<int>, ds: seq<int>, base: int)
    requires forall k :: 0 <= k < |zeros| ==> zeros[k] == 0
    ensures Value(zeros + ds, base) == Value(ds, base)
    decreases |zeros| + |ds|
  {
    if ds != [] {
      assert (zeros + ds)[..|zeros + ds| - 1] == zeros + ds[..|ds| - 1];
      ValueZeros(zeros, ds[..|ds| - 1], base);
    } else if zeros != [] {
      assert (zeros + ds)[..|zeros + ds| - 1] == zeros[..|zeros| - 1] + [];
      ValueZeros(zeros[..|zeros| - 1], [], base);
    }
  }

  /** Digits none of which is smaller denote a number that is not smaller, and that is larger if one of
      them is. */
  lemma {:induction false} ValueOrder(a: seq<int>, b: seq<int>, base: int)
    requires |a| == |b| && base > 0 && forall k :: 0 <= k < |a| ==> a[k] <= b[k]
    ensures Value(a, base) <= Value(b, base)
    ensures a != b ==> Value(a, base) < Value(b, base)
  {
    hide Value;
    if a != [] {
      var n := |a| - 1;
      ValueOrder(a[..n], b[..n], base);
      var x, y := Value(a[..n], base), Value(b[..n], base);
      ProductOrder(base, x, y);
      ValueLast(a, base);
      ValueLast(b, base);
      if a[..n] == b[..n] && a[n] == b[n] {
        SameDigits(a, b);
      }
    }
  }

  lemma ValueLast(ds: seq<int>, base: int)
    requires ds != []
    ensures Value(ds, base) == base * Value(ds[..|ds| - 1], base) + ds[|ds| - 1]
  {
    ProductCommutes(base, Value(ds[..|ds| - 1], base));
  }

  lemma ProductCommutes(a: int, b: int)
    ensures a * b == b * a
  {
  }

  lemma SameDigits(a: seq<int>, b: seq<int>)
    requires |a| == |b| > 0 && a[..|a| - 1] == b[..|a| - 1] && a[|a| - 1] == b[|a| - 1]
    ensures a == b
  {
    assert a == a[..|a| - 1] + [a[|a| - 1]];
  }

  lemma ProductOrder(b: int, x: int, y: int)
    requires b >= 0
    ensures x <= y ==> b * x <= b * y
    ensures b > 0 ==> (x < y <==> b * x < b * y)
  {
  }
}

/** The numeric building blocks the mixture code leans on: Python's `sum`,
    `numpy.isclose`, `numpy.linspace`, and the two floating-point library
    routines (`numpy.sqrt` and a least-squares line fit) that the model
    takes as parameters. All arithmetic is over exact reals. */
module Numerics {
  import opened Wrappers

  /** Python's built-in `sum` over a list of reals: 0 + s[0] + s[1] + ... */
  function Sum(s: seq<real>): real
  {
    if s == [] then 0.0 else Sum(s[..|s| - 1]) + s[|s| - 1]
  }

  lemma SumAppend(s: seq<real>, x: real)
    ensures Sum(s + [x]) == Sum(s) + x
  {
    assert (s + [x])[..|s|] == s;
  }

  lemma SumPair(a: real, b: real)
    ensures Sum([a, b]) == a + b
  {
    assert [a][..0] == [];
    assert Sum([a]) == a;
    assert [a, b][..1] == [a];
  }

  /** The comprehension `[m / t for m in s]`. */
  function DivideAll(s: seq<real>, t: real): (q: seq<real>)
    requires t != 0.0
    ensures |q| == |s|
    ensures forall i :: 0 <= i < |s| ==> q[i] * t == s[i]
  {
    seq(|s|, i requires 0 <= i < |s| => s[i] / t)
  }

  /** Dividing every term by t divides the sum by t. */
  lemma {:induction false} SumDivideAll(s: seq<real>, t: real)
    requires t != 0.0
    ensures Sum(DivideAll(s, t)) == Sum(s) / t
  {
    if s != [] {
      var n := |s| - 1;
      assert DivideAll(s, t)[..n] == DivideAll(s[..n], t);
      SumDivideAll(s[..n], t);
      assert Sum(DivideAll(s, t)) == Sum(s[..n]) / t + s[n] / t;
    }
  }

  /** Shares m_i / Σm of a list with a nonzero total add up to exactly 1. */
  lemma SharesSumToOne(s: seq<real>)
    requires Sum(s) != 0.0
    ensures Sum(DivideAll(s, Sum(s))) == 1.0
  {
    var t := Sum(s);
    assert t / t == 1.0;
    SumDivideAll(s, t);
  }

  /** A sum of nonnegative terms is nonnegative and bounds each term. */
  lemma {:induction false} SumBoundsTerms(s: seq<real>)
    requires forall i :: 0 <= i < |s| ==> 0.0 <= s[i]
    ensures 0.0 <= Sum(s)
    ensures forall i :: 0 <= i < |s| ==> s[i] <= Sum(s)
  {
    if s != [] {
      var n := |s| - 1;
      SumBoundsTerms(s[..n]);
      assert forall i :: 0 <= i < n ==> s[..n][i] == s[i];
    }
  }

  /** n copies of c add up to n·c. */
  lemma {:induction false} SumOfCopies(c: real, n: nat)
    ensures Sum(seq(n, _ => c)) == (n as real) * c
  {
    if n > 0 {
      assert seq(n, _ => c)[..n - 1] == seq(n - 1, _ => c);
      SumOfCopies(c, n - 1);
    }
  }

  function Abs(x: real): real { if x < 0.0 then -x else x }

  /** Default tolerances of `numpy.isclose`. */
  const ATOL: real := 0.00000001
  const RTOL: real := 0.00001

  /** `numpy.isclose(a, b)`: |a - b| <= atol + rtol·|b|. */
  predicate IsClose(a: real, b: real)
  {
    Abs(a - b) <= ATOL + RTOL * Abs(b)
  }

  /** `numpy.linspace(start, stop, num)` with its default endpoint=True:
      num evenly spaced samples, the last one set to `stop` exactly. */
  function Linspace(start: real, stop: real, num: nat): (r: seq<real>)
    ensures |r| == num
    ensures num >= 1 ==> r[0] == start
    ensures num >= 2 ==> r[num - 1] == stop
    ensures num >= 2 ==> forall k :: 0 <= k < num - 1 ==>
              r[k + 1] - r[k] == (stop - start) / ((num - 1) as real)
  {
    if num == 0 then []
    else if num == 1 then [start]
    else
      var step := (stop - start) / ((num - 1) as real);
      assert ((num - 1) as real) * step == stop - start;
      seq(num, k requires 0 <= k < num =>
        if k == num - 1 then stop else start + (k as real) * step)
  }

  /** With start < stop the samples are strictly increasing. */
  lemma LinspaceIncreasing(start: real, stop: real, num: nat)
    requires start < stop && num >= 2
    ensures forall i, j :: 0 <= i < j < num ==> Linspace(start, stop, num)[i] < Linspace(start, stop, num)[j]
  {
    var r := Linspace(start, stop, num);
    var step := (stop - start) / ((num - 1) as real);
    assert step > 0.0;
    forall k | 0 <= k < num
      ensures r[k] == start + (k as real) * step
    {
      if k == num - 1 {
        assert ((num - 1) as real) * step == stop - start;
      }
    }
    forall i, j | 0 <= i < j < num
      ensures r[i] < r[j]
    {
      assert r[j] - r[i] == ((j - i) as real) * step;
    }
  }

  /** A nonzero factor cancels from both sides of an equation. */
  lemma CancelNonzero(y: real, z: real, d: real)
    requires d != 0.0 && y * d == z * d
    ensures y == z
  {
    assert y == (y * d) / d;
    assert z == (z * d) / d;
  }

  /** A straight line y = intercept + slope·x. */
  datatype Line = Line(intercept: real, slope: real)

  /** The line's ordinate at x. */
  function LineAt(l: Line, x: real): real
  {
    l.intercept + l.slope * x
  }

  /** The floating-point library routines the core calls and that are not
      part of this model: `numpy.sqrt`, and the least-squares line fit
      (`numpy.polyfit(x, y, 1)` / `LR(x, y)`), which may fail (None). */
  datatype Library = Library(sqrt: real -> real, fit: (seq<real>, seq<real>) -> Option<Line>)

  /** `sqrt` returns the nonnegative square root of every nonnegative real. */
  ghost predicate SqrtSound(lib: Library)
  {
    forall x: real {:trigger lib.sqrt(x)} :: 0.0 <= x ==> 0.0 <= lib.sqrt(x) && lib.sqrt(x) * lib.sqrt(x) == x
  }

  /** Samples (xs, ys) that lie exactly on the line l. */
  ghost predicate OnLine(xs: seq<real>, ys: seq<real>, l: Line)
  {
    |xs| == |ys| && forall j :: 0 <= j < |ys| ==> ys[j] == LineAt(l, xs[j])
  }

  ghost predicate TwoDistinct(xs: seq<real>)
  {
    exists i, j :: 0 <= i < j < |xs| && xs[i] != xs[j]
  }

  /** A least-squares fit reproduces a line that the samples lie on exactly
      (the residual is then zero, and two distinct abscissae make it unique). */
  ghost predicate FitExact(lib: Library)
  {
    forall xs, ys, l {:trigger OnLine(xs, ys, l)} ::
      OnLine(xs, ys, l) && TwoDistinct(xs) ==> lib.fit(xs, ys) == Some(l)
  }

  /** Multiplying by a nonnegative factor keeps <=, by a positive one keeps <. */
  lemma ScaleLess(k: real, x: real, y: real)
    requires 0.0 <= k && x <= y
    ensures k * x <= k * y
    ensures 0.0 < k && x < y ==> k * x < k * y
  {
    assert k * y - k * x == k * (y - x);
  }

  /** A product of nonnegative factors is nonnegative, of positive ones positive. */
  lemma ProductSign(a: real, b: real)
    requires 0.0 <= a && 0.0 <= b
    ensures 0.0 <= a * b
    ensures 0.0 < a && 0.0 < b ==> 0.0 < a * b
  {
    ScaleLess(a, 0.0, b);
  }

  /** Multiplying by a positive factor keeps the strict order, in both directions. */
  lemma ScaleOrder(k: real, x: real, y: real)
    requires 0.0 < k
    ensures x < y <==> k * x < k * y
  {
    if x < y {
      ScaleLess(k, x, y);
    } else {
      ScaleLess(k, y, x);
    }
  }

  /** Squaring is strictly increasing on the nonnegative reals. */
  lemma SquareIncreasing(a: real, b: real)
    requires 0.0 <= a < b
    ensures a * a < b * b
  {
    var ab := a * b;
    assert a * a <= ab;
    assert ab < b * b;
  }

  /** Two nonnegative reals with the same square are equal. */
  lemma SquareRootUnique(s: real, t: real)
    requires 0.0 <= s && 0.0 <= t && s * s == t * t
    ensures s == t
  {
    if s < t {
      SquareIncreasing(s, t);
    } else if t < s {
      SquareIncreasing(t, s);
    }
  }

}

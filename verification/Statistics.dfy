/** The one-pass statistics of `stat.hpp`: shifted sums, checked against the two-pass definitions. */
module Statistics {
  import opened Numbers

  function Sum(xs: seq<real>): real {
    if xs == [] then 0.0 else Sum(xs[..|xs| - 1]) + xs[|xs| - 1]
  }

  function Square(x: real): real {
    x * x
  }

  function SumSquares(xs: seq<real>): real {
    if xs == [] then 0.0 else SumSquares(xs[..|xs| - 1]) + Square(xs[|xs| - 1])
  }

  /** The sum of the distances to `c`. */
  function Shifted(xs: seq<real>, c: real): real {
    if xs == [] then 0.0 else Shifted(xs[..|xs| - 1], c) + (xs[|xs| - 1] - c)
  }

  /** The sum of the squared distances to `c`. */
  function ShiftedSquares(xs: seq<real>, c: real): real {
    if xs == [] then 0.0 else ShiftedSquares(xs[..|xs| - 1], c) + Square(xs[|xs| - 1] - c)
  }

  function Mean(xs: seq<real>): real
    requires xs != []
  {
    Sum(xs) / |xs| as real
  }

  /** The two-pass population variance: the mean squared distance to the mean. */
  function Variance(xs: seq<real>): real
    requires xs != []
  {
    ShiftedSquares(xs, Mean(xs)) / |xs| as real
  }

  predicate IsLeast(lo: real, xs: seq<real>) {
    lo in xs && forall i :: 0 <= i < |xs| ==> lo <= xs[i]
  }

  predicate IsGreatest(hi: real, xs: seq<real>) {
    hi in xs && forall i :: 0 <= i < |xs| ==> xs[i] <= hi
  }

  // ----- Sums -----

  lemma {:induction false} SumAppend(xs: seq<real>, ys: seq<real>)
    ensures Sum(xs + ys) == Sum(xs) + Sum(ys)
    ensures SumSquares(xs + ys) == SumSquares(xs) + SumSquares(ys)
  {
    if ys == [] {
      assert xs + ys == xs;
    } else {
      assert (xs + ys)[..|xs + ys| - 1] == xs + ys[..|ys| - 1];
      SumAppend(xs, ys[..|ys| - 1]);
    }
  }

  lemma {:induction false} ShiftedIsSum(xs: seq<real>, c: real)
    ensures Shifted(xs, c) == Sum(xs) - |xs| as real * c
  {
    if xs == [] {
    } else {
      var n := |xs|;
      ShiftedIsSum(xs[..n - 1], c);
      assert n as real * c == (n - 1) as real * c + c;
    }
  }

  /** The sum of n squares of x - c, in terms of the sum s and the sum of squares q of the x. */
  function Expanded(n: real, s: real, q: real, c: real): real {
    q - 2.0 * c * s + n * (c * c)
  }

  lemma ExpandedNext(n: real, s: real, q: real, c: real, x: real)
    ensures Expanded(n + 1.0, s + x, q + Square(x), c) == Expanded(n, s, q, c) + Square(x - c)
  {
  }

  lemma {:induction false} ShiftedSquaresIsSum(xs: seq<real>, c: real)
    ensures ShiftedSquares(xs, c) == Expanded(|xs| as real, Sum(xs), SumSquares(xs), c)
  {
    if xs == [] {
    } else {
      hide Square, Expanded;
      var front, x := xs[..|xs| - 1], xs[|xs| - 1];
      ShiftedSquaresIsSum(front, c);
      ExpandedNext(|front| as real, Sum(front), SumSquares(front), c, x);
      assert |xs| as real == |front| as real + 1.0;
    }
  }

  // ----- The shifted one-pass formulas -----

  function OnePassMean(n: real, k: real, ex: real): real
    requires n > 0.0
  {
    k + ex / n
  }

  function OnePassVariance(n: real, ex: real, ex2: real): real
    requires n > 0.0
  {
    (ex2 - (ex * ex) / n) / n
  }

  /** The mean formula of the accumulator gives the mean whatever the shift. */
  lemma ShiftedMean(xs: seq<real>, k: real)
    requires xs != []
    ensures OnePassMean(|xs| as real, k, Shifted(xs, k)) == Mean(xs)
  {
    var n := |xs| as real;
    ShiftedIsSum(xs, k);
    Quotient(Sum(xs) - n * k, n);
    Quotient(Sum(xs), n);
    var q := (Sum(xs) - n * k) / n;
    SameProduct(q + k, Mean(xs), n);
  }

  lemma VarianceIsSum(xs: seq<real>)
    requires xs != []
    ensures Sum(xs) == |xs| as real * Mean(xs)
    ensures |xs| as real * Variance(xs) == SumSquares(xs) - |xs| as real * (Mean(xs) * Mean(xs))
  {
    hide Sum, SumSquares, ShiftedSquares, Expanded;
    var m := Mean(xs);
    ShiftedSquaresIsSum(xs, m);
    ExpandVariance(|xs| as real, m, Sum(xs), SumSquares(xs), ShiftedSquares(xs, m));
  }

  lemma ExpandVariance(n: real, m: real, s: real, q: real, d: real)
    requires n > 0.0 && m == s / n && d == Expanded(n, s, q, m)
    ensures s == n * m && n * (d / n) == q - n * (m * m)
  {
  }

  /** The value under the square root of the accumulator is the two-pass variance whatever the shift. */
  lemma ShiftedVariance(xs: seq<real>, k: real)
    requires xs != []
    ensures OnePassVariance(|xs| as real, Shifted(xs, k), ShiftedSquares(xs, k)) == Variance(xs)
  {
    hide *;
    VarianceIsSum(xs);
    ShiftedIsSum(xs, k);
    ShiftedSquaresIsSum(xs, k);
    OnePassAlgebra(|xs| as real, Mean(xs), k, Sum(xs), SumSquares(xs), Variance(xs), Shifted(xs, k),
        ShiftedSquares(xs, k));
  }

  lemma OnePassAlgebra(n: real, m: real, k: real, s: real, q: real, v: real, ex: real, ex2: real)
    requires n > 0.0 && s == n * m && n * v == q - n * (m * m)
    requires ex == s - n * k && ex2 == Expanded(n, s, q, k)
    ensures OnePassVariance(n, ex, ex2) == v
  {
    var d := m - k;
    assert ex == n * d;
    assert ex * ex == n * (n * (d * d));
    Quotient(ex * ex, n);
    SameProduct(ex * ex / n, n * (d * d), n);
    assert n * (d * d) == n * (m * m) - 2.0 * k * (n * m) + n * (k * k) by {
      assert d * d == m * m - 2.0 * (m * k) + k * k;
    }
    Quotient(n * v, n);
    SameProduct(n * v / n, v, n);
  }

  lemma Quotient(x: real, n: real)
    requires n > 0.0
    ensures n * (x / n) == x
  {
  }

  lemma SquareSign(x: real)
    ensures x == 0.0 ==> Square(x) == 0.0
    ensures x != 0.0 ==> Square(x) > 0.0
  {
    if x > 0.0 {
      assert Square(x) / x == x;
    } else if x < 0.0 {
      assert Square(x) / (-x) == -x;
    }
  }

  lemma SameProduct(x: real, y: real, n: real)
    requires n > 0.0 && n * x == n * y
    ensures x == y
  {
  }

  // ----- What the statistics mean -----

  ghost predicate Constant(xs: seq<real>, c: real) {
    forall i :: 0 <= i < |xs| ==> xs[i] == c
  }

  lemma {:induction false} DeviationsVanish(xs: seq<real>, c: real)
    ensures ShiftedSquares(xs, c) >= 0.0
    ensures ShiftedSquares(xs, c) == 0.0 <==> Constant(xs, c)
  {
    if xs == [] {
    } else {
      var last := |xs| - 1;
      DeviationsVanish(xs[..last], c);
      SquareSign(xs[last] - c);
      ConstantStep(xs, c);
      hide Square, Constant;
    }
  }

  lemma ConstantStep(xs: seq<real>, c: real)
    requires xs != []
    ensures Constant(xs, c) <==> Constant(xs[..|xs| - 1], c) && xs[|xs| - 1] == c
  {
  }

  function Spread(n: real, s: real, lo: real, hi: real): real {
    (hi + lo) * s - n * (hi * lo)
  }

  lemma SpreadNext(n: real, s: real, lo: real, hi: real, x: real)
    requires lo <= x <= hi
    ensures Spread(n + 1.0, s + x, lo, hi) >= Spread(n, s, lo, hi) + Square(x)
  {
  }

  lemma {:induction false} SpreadSum(xs: seq<real>, lo: real, hi: real)
    requires forall i :: 0 <= i < |xs| ==> lo <= xs[i] <= hi
    ensures SumSquares(xs) <= Spread(|xs| as real, Sum(xs), lo, hi)
  {
    if xs == [] {
    } else {
      hide Square, Spread;
      var front, x := xs[..|xs| - 1], xs[|xs| - 1];
      SpreadSum(front, lo, hi);
      SpreadNext(|front| as real, Sum(front), lo, hi, x);
      assert |xs| as real == |front| as real + 1.0;
    }
  }

  lemma {:induction false} SumBetween(xs: seq<real>, lo: real, hi: real)
    requires forall i :: 0 <= i < |xs| ==> lo <= xs[i] <= hi
    ensures |xs| as real * lo <= Sum(xs) <= |xs| as real * hi
  {
    if xs == [] {
    } else {
      var n := |xs|;
      SumBetween(xs[..n - 1], lo, hi);
      assert n as real * lo == (n - 1) as real * lo + lo;
      assert n as real * hi == (n - 1) as real * hi + hi;
    }
  }

  lemma MeanBetween(xs: seq<real>, lo: real, hi: real)
    requires xs != [] && forall i :: 0 <= i < |xs| ==> lo <= xs[i] <= hi
    ensures lo <= Mean(xs) <= hi
  {
    SumBetween(xs, lo, hi);
    QuotientBetween(lo, Sum(xs), hi, |xs| as real);
  }

  lemma QuotientBetween(lo: real, s: real, hi: real, n: real)
    requires n > 0.0 && n * lo <= s <= n * hi
    ensures lo <= s / n <= hi
  {
    Quotient(s, n);
    Between(lo, s / n, hi, n);
  }

  lemma Between(lo: real, x: real, hi: real, n: real)
    requires n > 0.0 && n * lo <= n * x <= n * hi
    ensures lo <= x <= hi
  {
  }

  /** The variance lies between 0 and (max - mean) * (mean - min), and vanishes only on constant samples. */
  lemma VarianceBounds(xs: seq<real>, lo: real, hi: real)
    requires xs != [] && IsLeast(lo, xs) && IsGreatest(hi, xs)
    ensures lo <= Mean(xs) <= hi
    ensures 0.0 <= Variance(xs) <= (hi - Mean(xs)) * (Mean(xs) - lo)
    ensures Variance(xs) == 0.0 <==> lo == hi
  {
    hide Sum, SumSquares, ShiftedSquares, Mean, Spread;
    var n, m, v := |xs| as real, Mean(xs), Variance(xs);
    MeanBetween(xs, lo, hi);
    VarianceIsSum(xs);
    SpreadSum(xs, lo, hi);
    DeviationsVanish(xs, m);
    Quotient(ShiftedSquares(xs, m), n);
    SpreadProduct(n, m, lo, hi, v, Sum(xs), SumSquares(xs));
    Between(0.0, v, (hi - m) * (m - lo), n);
    if v == 0.0 {
      assert ShiftedSquares(xs, m) == 0.0;
    }
  }

  lemma SpreadProduct(n: real, m: real, lo: real, hi: real, v: real, s: real, q: real)
    requires n * v == q - n * (m * m) && s == n * m && q <= Spread(n, s, lo, hi)
    ensures n * v <= n * ((hi - m) * (m - lo))
  {
  }

  // ----- Order independence -----

  lemma {:induction false} RemoveAt(xs: seq<real>, i: nat)
    requires i < |xs|
    ensures Sum(xs) == Sum(xs[..i] + xs[i + 1..]) + xs[i]
    ensures SumSquares(xs) == SumSquares(xs[..i] + xs[i + 1..]) + Square(xs[i])
    ensures multiset(xs) == multiset(xs[..i] + xs[i + 1..]) + multiset{xs[i]}
  {
    var front := xs[..i + 1];
    assert front[..i] == xs[..i];
    assert xs == front + xs[i + 1..] == xs[..i] + [xs[i]] + xs[i + 1..];
    SumAppend(front, xs[i + 1..]);
    SumAppend(xs[..i], xs[i + 1..]);
  }

  lemma {:induction false} SumPermutes(xs: seq<real>, ys: seq<real>)
    requires multiset(xs) == multiset(ys)
    ensures |xs| == |ys| && Sum(xs) == Sum(ys) && SumSquares(xs) == SumSquares(ys)
    decreases |xs|
  {
    hide Sum, SumSquares;
    assert |multiset(xs)| == |xs| && |multiset(ys)| == |ys|;
    if xs == [] {
      assert ys == [];
    } else {
      var last := |xs| - 1;
      assert xs[last] in multiset(ys);
      var i :| 0 <= i < |ys| && ys[i] == xs[last];
      RemoveAt(xs, last);
      RemoveAt(ys, i);
      var xs', ys' := xs[..last] + xs[last + 1..], ys[..i] + ys[i + 1..];
      assert multiset(xs') == multiset(xs) - multiset{xs[last]};
      assert multiset(ys') == multiset(ys) - multiset{xs[last]};
      SumPermutes(xs', ys');
    }
  }

  /** Mean, variance, least and greatest sample depend only on the multiset of samples,
      although the accumulator shifts by the first of them. */
  lemma OrderIndependent(xs: seq<real>, ys: seq<real>)
    requires xs != [] && multiset(xs) == multiset(ys)
    ensures ys != [] && Mean(xs) == Mean(ys) && Variance(xs) == Variance(ys)
    ensures forall x :: IsLeast(x, xs) <==> IsLeast(x, ys)
    ensures forall x :: IsGreatest(x, xs) <==> IsGreatest(x, ys)
  {
    hide Sum, SumSquares, ShiftedSquares, IsLeast, IsGreatest;
    SumPermutes(xs, ys);
    var c := Mean(xs);
    ShiftedSquaresIsSum(xs, c);
    ShiftedSquaresIsSum(ys, c);
    forall x
      ensures IsLeast(x, xs) <==> IsLeast(x, ys)
      ensures IsGreatest(x, xs) <==> IsGreatest(x, ys)
    {
      ExtremesMove(x, xs, ys);
      ExtremesMove(x, ys, xs);
    }
  }

  lemma ExtremesMove(x: real, xs: seq<real>, ys: seq<real>)
    requires multiset(xs) == multiset(ys)
    ensures IsLeast(x, xs) ==> IsLeast(x, ys)
    ensures IsGreatest(x, xs) ==> IsGreatest(x, ys)
  {
    assert x in xs ==> x in multiset(ys);
    forall i | 0 <= i < |ys| ensures ys[i] in xs {
      assert ys[i] in multiset(xs);
    }
  }

  // ----- The accumulator -----

  /** The fields are the shifted sums of the samples, shifted by the first one, and the extremes. */
  ghost predicate Represents(xs: seq<real>, count: nat, k: real, ex: real, ex2: real, lo: real, hi: real) {
    && count == |xs|
    && ex == Shifted(xs, k)
    && ex2 == ShiftedSquares(xs, k)
    && (count > 0 ==> k == xs[0] && IsLeast(lo, xs) && IsGreatest(hi, xs))
  }

  lemma RepresentsNothing(xs: seq<real>, k: real, ex: real, ex2: real, lo: real, hi: real, x: real)
    requires Represents(xs, 0, k, ex, ex2, lo, hi)
    ensures Represents(xs, 0, x, ex, ex2, x, x)
  {
  }

  lemma RepresentsNext(xs: seq<real>, x: real, count: nat, k: real, ex: real, ex2: real, lo: real, hi: real)
    requires Represents(xs, count, k, ex, ex2, lo, hi)
    requires count == 0 ==> lo == x && hi == x && k == x
    ensures Represents(xs + [x], count + 1, k, ex + (x - k), ex2 + Square(x - k),
                       if x < lo then x else lo, if x > hi then x else hi)
  {
  }

  class Stat {
    var max: real
    var min: real
    var shift: real
    var ex: real
    var ex2: real
    var count: nat
    ghost var samples: seq<real>

    ghost predicate Valid()
      reads this
    {
      Represents(samples, count, shift, ex, ex2, min, max)
    }

    constructor ()
      ensures Valid() && samples == []
    {
      ex, ex2, count := 0.0, 0.0, 0;
      samples := [];
    }

    method AddSample(x: real)
      requires Valid()
      modifies this
      ensures Valid() && samples == old(samples) + [x]
    {
      hide Represents, Square;
      if count == 0 {
        RepresentsNothing(samples, shift, ex, ex2, min, max, x);
        max := x;
        min := x;
        shift := x;
      }
      RepresentsNext(samples, x, count, shift, ex, ex2, min, max);
      if x > max {
        max := x;
      }
      if x < min {
        min := x;
      }
      count := count + 1;
      ex := ex + (x - shift);
      ex2 := ex2 + Square(x - shift);
      samples := samples + [x];
    }

    function N(): (n: nat)
      requires Valid()
      reads this
      ensures n == |samples|
    {
      count
    }

    function GetMean(): (m: Double)
      requires Valid()
      reads this
      ensures samples == [] <==> m == NaN
      ensures samples != [] ==> m == Finite(Mean(samples))
    {
      if count == 0 then NaN
      else
        ShiftedMean(samples, shift);
        Finite(OnePassMean(count as real, shift, ex))
    }

    /** The value whose square root `stddev` returns. */
    function GetVariance(): (v: Double)
      requires Valid()
      reads this
      ensures samples == [] <==> v == NaN
      ensures samples != [] ==> v == Finite(Variance(samples))
    {
      if count == 0 then NaN
      else if count == 1 then
        VarianceBounds(samples, min, max);
        Finite(0.0)
      else
        ShiftedVariance(samples, shift);
        Finite(OnePassVariance(count as real, ex, ex2))
    }

    function GetMax(): (m: Double)
      requires Valid()
      reads this
      ensures samples == [] <==> m == NaN
      ensures samples != [] ==> m.Finite? && IsGreatest(m.value, samples)
    {
      if count == 0 then NaN else Finite(max)
    }

    function GetMin(): (m: Double)
      requires Valid()
      reads this
      ensures samples == [] <==> m == NaN
      ensures samples != [] ==> m.Finite? && IsLeast(m.value, samples)
    {
      if count == 0 then NaN else Finite(min)
    }
  }
}

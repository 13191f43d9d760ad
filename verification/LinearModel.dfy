/**
 Online ridge regression by recursive least squares.  The model keeps the inverse matrix P up to date by
 rank-one corrections instead of ever inverting; doubles are exact reals here.
 */
module LinearModel {
  import opened LinearAlgebra

  // ---------------------------------------------------------------- what P and the weights stand for

  // ridge * I plus the sum of x * x^T over the observations.
  ghost function Gram(n: nat, ridge: real, obs: seq<Vec>): (a: Mat)
    requires forall i :: 0 <= i < |obs| ==> |obs[i]| == n
    ensures Square(n, a)
  {
    if obs == [] then Diagonal(n, ridge)
    else AddOuter(Gram(n, ridge, obs[..|obs| - 1]), obs[|obs| - 1], obs[|obs| - 1])
  }

  // The sum of y * x over the observations.
  ghost function Moments(n: nat, obs: seq<Vec>, ys: seq<real>): (b: Vec)
    requires |obs| == |ys| && forall i :: 0 <= i < |obs| ==> |obs[i]| == n
    ensures |b| == n
  {
    if obs == [] then Zero(n)
    else Plus(Moments(n, obs[..|obs| - 1], ys[..|obs| - 1]), Scale(ys[|obs| - 1], obs[|obs| - 1]))
  }

  lemma {:induction false} GramSymmetric(n: nat, ridge: real, obs: seq<Vec>)
    requires forall i :: 0 <= i < |obs| ==> |obs[i]| == n
    ensures Symmetric(n, Gram(n, ridge, obs))
  {
    if obs != [] {
      hide Times;
      var x := obs[|obs| - 1];
      GramSymmetric(n, ridge, obs[..|obs| - 1]);
      ScaleOne(x);
      OuterSymmetric(Gram(n, ridge, obs[..|obs| - 1]), 1.0, x);
    }
  }

  lemma ScaleOne(x: Vec)
    ensures Scale(1.0, x) == x
  {
  }

  lemma DiagonalTimes(n: nat, c: real, v: Vec)
    requires |v| == n
    ensures MatVec(Diagonal(n, c), v) == Scale(c, v)
  {
    hide Times, Dot;
    forall i | 0 <= i < n ensures MatVec(Diagonal(n, c), v)[i] == Scale(c, v)[i] { DotUnit(n, i, c, v); }
  }

  // The matrix is positive semidefinite: v^T A v is ridge |v|^2 plus a sum of squares.
  lemma {:induction false} GramNonNegative(n: nat, ridge: real, obs: seq<Vec>, v: Vec)
    requires ridge > 0.0 && |v| == n && forall i :: 0 <= i < |obs| ==> |obs[i]| == n
    ensures Dot(MatVec(Gram(n, ridge, obs), v), v) >= 0.0
  {
    hide Dot, Times;
    if obs == [] {
      DiagonalTimes(n, ridge, v);
      DotScale(ridge, v, v);
      DotSelfNonNegative(v);
      TimesNonNegative(ridge, Dot(v, v));
    } else {
      var x := obs[|obs| - 1];
      var a := Gram(n, ridge, obs[..|obs| - 1]);
      GramNonNegative(n, ridge, obs[..|obs| - 1], v);
      MatVecOuter(a, x, x, v);
      DotPlus(MatVec(a, v), Scale(Dot(x, v), x), v);
      DotScale(Dot(x, v), x, v);
      TimesNonNegative(Dot(x, v), Dot(x, v));
    }
  }

  lemma TimesNonNegative(a: real, b: real)
    requires a == b || (a >= 0.0 && b >= 0.0)
    ensures Times(a, b) >= 0.0
  {
  }

  // The divisor of the gain is at least one: x^T P x == q^T A q for q == P x.
  lemma DivisorAtLeastOne(n: nat, ridge: real, obs: seq<Vec>, p: Mat, x: Vec)
    requires ridge > 0.0 && |x| == n && forall i :: 0 <= i < |obs| ==> |obs[i]| == n
    requires Square(n, p) && Symmetric(n, p) && Inverse(n, Gram(n, ridge, obs), p)
    ensures Dot(x, MatVec(p, x)) >= 0.0
  {
    hide Dot, Times;
    InverseSolves(Gram(n, ridge, obs), p, x);
    GramNonNegative(n, ridge, obs, MatVec(p, x));
  }

  // A * w == b still holds after the weights move by gain * error and the observation enters A and b.
  lemma NormalEquations(a: Mat, x: Vec, w: Vec, b: Vec, q: Vec, d: real, h: real, y: real)
    requires |x| == |w| == |b| == |q| && Square(|x|, a)
    requires MatVec(a, w) == b && MatVec(a, q) == x && d == 1.0 + Dot(x, q)
    requires Times(h, d) == y - Dot(x, w)
    ensures MatVec(AddOuter(a, x, x), Plus(w, Scale(h, q))) == Plus(b, Scale(y, x))
  {
    hide Dot, Times;
    var w' := Plus(w, Scale(h, q));
    MatVecOuter(a, x, x, w');
    MatVecPlus(a, w, Scale(h, q));
    MatVecScale(a, h, q);
    DotPlusRight(x, w, Scale(h, q));
    DotScaleRight(x, h, q);
    forall i | 0 <= i < |x| ensures Plus(Plus(b, Scale(h, x)), Scale(Dot(x, w'), x))[i] == Plus(b, Scale(y, x))[i]
    {
      Collect(h, Dot(x, q), d, Dot(x, w), y, x[i], Dot(x, w'));
    }
  }

  lemma Collect(h: real, s: real, d: real, xw: real, y: real, x: real, e: real)
    requires d == 1.0 + s && Times(h, d) == y - xw && e == xw + Times(h, s)
    ensures Times(h, x) + Times(e, x) == Times(y, x)
  {
    assert h + e == y;
  }

  // ---------------------------------------------------------------- the loops of the update

  method TimesVector(p: Mat, x: Vec) returns (px: Vec)
    requires Square(|x|, p)
    ensures px == MatVec(p, x)
  {
    px := Zero(|x|);
    for i := 0 to |x|
      invariant |px| == |x| && forall m :: 0 <= m < i ==> px[m] == Dot(p[m], x)
    {
      var sum := InnerProduct(p[i], x);
      px := px[i := sum];
    }
  }

  method InnerProduct(a: Vec, b: Vec) returns (sum: real)
    requires |a| == |b|
    ensures sum == Dot(a, b)
  {
    sum := 0.0;
    for j := 0 to |a|
      invariant sum == Dot(a[..j], b[..j])
    {
      DotLast(a[..j + 1], b[..j + 1], j);
      assert a[..j + 1][..j] == a[..j] && b[..j + 1][..j] == b[..j];
      sum := sum + a[j] * b[j];
    }
    assert a[..|a|] == a && b[..|a|] == b;
  }

  // x^T P, computed down the columns; for a symmetric P it is P x again.
  method VectorTimes(x: Vec, p: Mat) returns (xtp: Vec)
    requires Square(|x|, p) && Symmetric(|x|, p)
    ensures xtp == MatVec(p, x)
  {
    hide Dot, Times;
    xtp := Zero(|x|);
    for j := 0 to |x|
      invariant |xtp| == |x| && forall m :: 0 <= m < j ==> xtp[m] == Dot(p[m], x)
    {
      var sum := ColumnProduct(x, p, j);
      assert Column(p, j) == p[j];
      DotCommutes(x, p[j]);
      xtp := xtp[j := sum];
    }
  }

  method ColumnProduct(x: Vec, p: Mat, j: nat) returns (sum: real)
    requires Square(|x|, p) && j < |x|
    ensures sum == Dot(x, Column(p, j))
  {
    hide Dot;
    var column := Column(p, j);
    sum := 0.0;
    NoProduct(x, column);
    for i := 0 to |x|
      invariant sum == Dot(x[..i], column[..i])
    {
      DotLast(x[..i + 1], column[..i + 1], i);
      assert x[..i + 1][..i] == x[..i] && column[..i + 1][..i] == column[..i];
      sum := sum + x[i] * p[i][j];
    }
    assert x[..|x|] == x && column[..|x|] == column;
  }

  lemma NoProduct(a: Vec, b: Vec)
    requires |a| == |b|
    ensures Dot(a[..0], b[..0]) == 0.0
  {
  }

  method Divide(px: Vec, d: real) returns (k: Vec)
    requires d != 0.0
    ensures |k| == |px| && forall i :: 0 <= i < |px| ==> Times(d, k[i]) == px[i]
  {
    k := Zero(|px|);
    for i := 0 to |px|
      invariant |k| == |px| && forall m :: 0 <= m < i ==> Times(d, k[m]) == px[m]
    {
      k := k[i := px[i] / d];
    }
  }

  // P -= k * v^T, entry by entry.
  method SubtractOuter(p: Mat, k: Vec, v: Vec) returns (r: Mat)
    requires |k| == |v| && Square(|v|, p)
    ensures r == AddOuter(p, Scale(-1.0, k), v)
  {
    r := p;
    ghost var goal := AddOuter(p, Scale(-1.0, k), v);
    for i := 0 to |v|
      invariant |r| == |v| && (forall m :: 0 <= m < i ==> r[m] == goal[m]) && forall m :: i <= m < |v| ==> r[m] == p[m]
    {
      for j := 0 to |v|
        invariant |r| == |v| && (forall m :: 0 <= m < i ==> r[m] == goal[m]) && forall m :: i < m < |v| ==> r[m] == p[m]
        invariant |r[i]| == |v| && (forall m :: 0 <= m < j ==> r[i][m] == goal[i][m])
        invariant forall m :: j <= m < |v| ==> r[i][m] == p[i][m]
      {
        AddOuterEntry(p, Scale(-1.0, k), v, i, j);
        MinusEntry(k[i], v[j]);
        r := r[i := r[i][j := r[i][j] - k[i] * v[j]]];
      }
      assert r[i] == goal[i];
    }
  }

  lemma MinusEntry(k: real, v: real)
    ensures Times(Times(-1.0, k), v) == -(k * v)
  {
  }

  method AddScaled(w: Vec, k: Vec, error: real) returns (r: Vec)
    requires |w| == |k|
    ensures r == Plus(w, Scale(error, k))
  {
    r := w;
    for i := 0 to |w|
      invariant |r| == |w| && (forall m :: 0 <= m < i ==> r[m] == w[m] + Times(error, k[m]))
      invariant forall m :: i <= m < |w| ==> r[m] == w[m]
    {
      r := r[i := r[i] + k[i] * error];
    }
  }

  method ScaledIdentity(n: nat, c: real) returns (p: Mat)
    ensures p == Diagonal(n, c)
  {
    p := seq(n, _ => Zero(n));
    for i := 0 to n
      invariant |p| == n && (forall m :: 0 <= m < i ==> p[m] == Unit(n, m, c))
      invariant forall m :: i <= m < n ==> p[m] == Zero(n)
    {
      p := p[i := p[i][i := c]];
      assert p[i] == Unit(n, i, c);
    }
  }

  // ---------------------------------------------------------------- the model object

  lemma DiagonalInverse(n: nat, ridge: real)
    requires ridge > 0.0
    ensures Inverse(n, Diagonal(n, ridge), Diagonal(n, 1.0 / ridge)) && Symmetric(n, Diagonal(n, 1.0 / ridge))
  {
    var p := Diagonal(n, 1.0 / ridge);
    forall i, j | 0 <= i < n && 0 <= j < n
      ensures Dot(Diagonal(n, ridge)[i], p[j]) == if i == j then 1.0 else 0.0
    {
      DotUnit(n, i, ridge, p[j]);
    }
  }

  lemma ZeroSolves(m: Mat, n: nat)
    requires Square(n, m)
    ensures MatVec(m, Zero(n)) == Zero(n)
  {
    hide Dot, Times;
    forall i | 0 <= i < n ensures MatVec(m, Zero(n))[i] == 0.0
    {
      DotZero(m[i]);
      DotCommutes(m[i], Zero(n));
    }
  }

  // One rank-one correction keeps P symmetric and inverse to the Gram matrix.
  lemma TrainStep(n: nat, ridge: real, seen: seq<Vec>, p: Mat, x: Vec, k: Vec, d: real)
    requires ridge > 0.0 && |x| == n == |k| && forall i :: 0 <= i < |seen| ==> |seen[i]| == n
    requires Square(n, p) && Symmetric(n, p) && Inverse(n, Gram(n, ridge, seen), p)
    requires d == 1.0 + Dot(x, MatVec(p, x)) && d != 0.0
    requires forall i :: 0 <= i < n ==> Times(d, k[i]) == MatVec(p, x)[i]
    ensures var p' := AddOuter(p, Scale(-1.0, k), MatVec(p, x));
      Symmetric(n, p') && Inverse(n, Gram(n, ridge, seen + [x]), p')
  {
    hide Dot, Times;
    var q := MatVec(p, x);
    var g := Scale(-1.0, k);
    assert (seen + [x])[..|seen|] == seen;
    forall i | 0 <= i < n ensures Plus(Scale(d, g), q)[i] == 0.0 && g[i] == Scale(-1.0 / d, q)[i]
    {
      GainScalars(d, k[i], q[i]);
    }
    assert Plus(Scale(d, g), q) == Zero(n) && g == Scale(-1.0 / d, q);
    ShermanMorrison(Gram(n, ridge, seen), p, x, g, q, d);
    OuterSymmetric(p, -1.0 / d, q);
  }

  lemma GainScalars(d: real, k: real, q: real)
    requires d != 0.0 && Times(d, k) == q
    ensures Times(d, Times(-1.0, k)) + q == 0.0 && Times(-1.0, k) == Times(-1.0 / d, q)
  {
    assert k == q / d;
  }

  lemma TrainWeights(n: nat, ridge: real, seen: seq<Vec>, ys: seq<real>, p: Mat, x: Vec, k: Vec, d: real, w: Vec,
                     error: real, y: real)
    requires ridge > 0.0 && |x| == n == |k| == |w| && |seen| == |ys| && forall i :: 0 <= i < |seen| ==> |seen[i]| == n
    requires Square(n, p) && Symmetric(n, p) && Inverse(n, Gram(n, ridge, seen), p)
    requires d == 1.0 + Dot(x, MatVec(p, x)) && d != 0.0
    requires forall i :: 0 <= i < n ==> Times(d, k[i]) == MatVec(p, x)[i]
    requires MatVec(Gram(n, ridge, seen), w) == Moments(n, seen, ys) && error == y - Dot(x, w)
    ensures MatVec(Gram(n, ridge, seen + [x]), Plus(w, Scale(error, k))) == Moments(n, seen + [x], ys + [y])
  {
    hide Dot, Times;
    var q := MatVec(p, x);
    var h := error / d;
    assert (seen + [x])[..|seen|] == seen && (ys + [y])[..|seen|] == ys;
    forall i | 0 <= i < n ensures Scale(error, k)[i] == Scale(h, q)[i] { StepScalars(d, k[i], q[i], error); }
    assert Scale(error, k) == Scale(h, q);
    InverseSolves(Gram(n, ridge, seen), p, x);
    DivideBack(error, d);
    NormalEquations(Gram(n, ridge, seen), x, w, Moments(n, seen, ys), q, d, h, y);
  }

  lemma StepScalars(d: real, k: real, q: real, error: real)
    requires d != 0.0 && Times(d, k) == q
    ensures Times(error, k) == Times(error / d, q)
  {
    assert error / d * (d * k) == error * k;
  }

  lemma DivideBack(a: real, d: real)
    requires d != 0.0
    ensures Times(a / d, d) == a
  {
  }

  class Regressor {
    const n: nat
    const ridge: real
    var weights: Vec
    var bias: real
    var observations: nat
    var P: Mat
    ghost var seen: seq<Vec>      // the features trained on since construction or reset
    ghost var targets: seq<real>  // their targets, less the bias in force at the time

    // P is the inverse of the Gram matrix of everything seen.
    ghost predicate Valid()
      reads this
    {
      && ridge > 0.0 && |weights| == n && Square(n, P) && Symmetric(n, P)
      && observations == |seen| == |targets| && (forall i :: 0 <= i < |seen| ==> |seen[i]| == n)
      && Inverse(n, Gram(n, ridge, seen), P)
    }

    // The weights solve the ridge normal equations for the bias-corrected targets.
    ghost predicate Fitted()
      requires Valid()
      reads this
    {
      MatVec(Gram(n, ridge, seen), weights) == Moments(n, seen, targets)
    }

    constructor (numFeatures: nat, strength: real)
      requires strength > 0.0
      ensures Valid() && Fitted() && n == numFeatures && ridge == strength && seen == []
      ensures weights == Zero(n) && bias == 0.0
    {
      n, ridge := numFeatures, strength;
      weights, bias, observations := Zero(numFeatures), 0.0, 0;
      seen, targets := [], [];
      var p := ScaledIdentity(numFeatures, 1.0 / strength);
      P := p;
      new;
      DiagonalInverse(n, ridge);
      ZeroSolves(Gram(n, ridge, []), n);
    }

    method Predict(features: Vec) returns (result: real)
      requires Valid() && |features| == n
      ensures result == bias + Dot(weights, features)
    {
      var product := InnerProduct(weights, features);
      result := bias + product;
    }

    method Train(features: Vec, target: real)
      requires Valid() && |features| == n
      modifies this
      ensures Valid() && seen == old(seen) + [features] && targets == old(targets) + [target - old(bias)]
      ensures old(Fitted()) ==> Fitted()
      ensures bias == old(bias) + (target - (old(bias) + Dot(old(weights), features))) / (observations as real)
    {
      hide Dot, Times, MatVec, AddOuter, Scale, Gram, Moments, Plus;
      var px := TimesVector(P, features);
      var xPx := InnerProduct(features, px);
      DivisorAtLeastOne(n, ridge, seen, P, features);
      var denom := 1.0 + xPx;
      var k := Divide(px, denom);

      var prediction := Predict(features);
      var error := target - prediction;
      DotCommutes(weights, features);
      TrainStep(n, ridge, seen, P, features, k, denom);
      if Fitted() {
        TrainWeights(n, ridge, seen, targets, P, features, k, denom, weights, error, target - bias);
      }

      var w := AddScaled(weights, k, error);
      var xTP := VectorTimes(features, P);
      var p := SubtractOuter(P, k, xTP);
      seen, targets := seen + [features], targets + [target - bias];
      weights, P := w, p;
      observations := observations + 1;
      bias := bias + error / (observations as real);
    }

    method Reset()
      requires Valid()
      modifies this
      ensures Valid() && Fitted() && seen == [] && weights == Zero(n) && bias == 0.0
    {
      var p := ScaledIdentity(n, 1.0 / ridge);
      weights, bias, observations, P := Zero(n), 0.0, 0, p;
      seen, targets := [], [];
      DiagonalInverse(n, ridge);
      ZeroSolves(Gram(n, ridge, []), n);
    }
  }

  // P does not depend on how it was reached: two models that saw the same observations hold the same P.
  lemma SameHistorySameInverse(a: Regressor, b: Regressor)
    requires a.Valid() && b.Valid() && a.n == b.n && a.ridge == b.ridge && a.seen == b.seen
    ensures a.P == b.P
  {
    GramSymmetric(a.n, a.ridge, a.seen);
    InverseUnique(a.n, Gram(a.n, a.ridge, a.seen), a.P, b.P);
  }
}

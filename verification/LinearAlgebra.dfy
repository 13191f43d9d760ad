/** Exact vectors and square matrices (as rows) with the few laws the online regression rests on. */
module LinearAlgebra {

  type Vec = seq<real>
  type Mat = seq<Vec>

  // Multiplication under a name, so that proofs about sums can treat it as an unknown function.
  function Times(a: real, b: real): real {
    a * b
  }

  lemma TimesLaws(a: real, b: real, c: real)
    ensures Times(a, b) == Times(b, a)
    ensures Times(Times(a, b), c) == Times(a, Times(b, c))
    ensures Times(a + b, c) == Times(a, c) + Times(b, c)
    ensures Times(c, a + b) == Times(c, a) + Times(c, b)
    ensures Times(0.0, a) == 0.0 && Times(1.0, a) == a && Times(-1.0, a) == -a && Times(-a, b) == -Times(a, b)
  {
  }

  function Dot(a: Vec, b: Vec): real
    requires |a| == |b|
  {
    if a == [] then 0.0 else Dot(a[..|a| - 1], b[..|a| - 1]) + Times(a[|a| - 1], b[|a| - 1])
  }

  function Plus(a: Vec, b: Vec): (r: Vec)
    requires |a| == |b|
    ensures |r| == |a| && forall i :: 0 <= i < |a| ==> r[i] == a[i] + b[i]
  {
    seq(|a|, i requires 0 <= i < |a| => a[i] + b[i])
  }

  function Scale(c: real, a: Vec): (r: Vec)
    ensures |r| == |a| && forall i :: 0 <= i < |a| ==> r[i] == Times(c, a[i])
  {
    seq(|a|, i requires 0 <= i < |a| => Times(c, a[i]))
  }

  function Zero(n: nat): (r: Vec)
    ensures |r| == n && forall i :: 0 <= i < n ==> r[i] == 0.0
  {
    seq(n, _ => 0.0)
  }

  // The i-th row of c times the identity.
  function Unit(n: nat, i: nat, c: real): (r: Vec)
    ensures |r| == n && forall j :: 0 <= j < n ==> r[j] == if i == j then c else 0.0
  {
    seq(n, j => if i == j then c else 0.0)
  }

  predicate Square(n: nat, m: Mat) {
    |m| == n && forall i :: 0 <= i < n ==> |m[i]| == n
  }

  predicate Symmetric(n: nat, m: Mat)
    requires Square(n, m)
  {
    forall i, j :: 0 <= i < n && 0 <= j < n ==> m[i][j] == m[j][i]
  }

  function MatVec(m: Mat, v: Vec): (r: Vec)
    requires Square(|v|, m)
    ensures |r| == |v| && forall i :: 0 <= i < |v| ==> r[i] == Dot(m[i], v)
  {
    seq(|v|, i requires 0 <= i < |v| => Dot(m[i], v))
  }

  function Diagonal(n: nat, c: real): (r: Mat)
    ensures Square(n, r) && forall i :: 0 <= i < n ==> r[i] == Unit(n, i, c)
  {
    seq(n, i requires 0 <= i < n => Unit(n, i, c))
  }

  // m + k * u^T
  function AddOuter(m: Mat, k: Vec, u: Vec): (r: Mat)
    requires |k| == |u| && Square(|u|, m)
    ensures Square(|u|, r) && forall i :: 0 <= i < |u| ==> r[i] == Plus(m[i], Scale(k[i], u))
  {
    seq(|u|, i requires 0 <= i < |u| => Plus(m[i], Scale(k[i], u)))
  }

  // For a symmetric p, the (i, j) entry of a * p is the product of row i of a with row j of p.
  predicate Inverse(n: nat, a: Mat, p: Mat)
    requires Square(n, a) && Square(n, p)
  {
    forall i, j :: 0 <= i < n && 0 <= j < n ==> Dot(a[i], p[j]) == if i == j then 1.0 else 0.0
  }

  // ---------------------------------------------------------------- dot products

  lemma {:induction false} DotCommutes(a: Vec, b: Vec)
    requires |a| == |b|
    ensures Dot(a, b) == Dot(b, a)
  {
    if a != [] { DotCommutes(a[..|a| - 1], b[..|a| - 1]); }
  }

  lemma DotLast(a: Vec, b: Vec, n: nat)
    requires |a| == |b| == n + 1
    ensures Dot(a, b) == Dot(a[..n], b[..n]) + Times(a[n], b[n])
  {
  }

  lemma {:induction false} DotPlus(a: Vec, b: Vec, v: Vec)
    requires |a| == |b| == |v|
    ensures Dot(Plus(a, b), v) == Dot(a, v) + Dot(b, v)
  {
    if a != [] {
      hide *;
      var n := |a| - 1;
      DotPlus(a[..n], b[..n], v[..n]);
      assert Plus(a, b)[..n] == Plus(a[..n], b[..n]);
      DotLast(a, v, n);
      DotLast(b, v, n);
      DotLast(Plus(a, b), v, n);
      TimesLaws(a[n], b[n], v[n]);
    }
  }

  lemma DotPlusRight(v: Vec, a: Vec, b: Vec)
    requires |a| == |b| == |v|
    ensures Dot(v, Plus(a, b)) == Dot(v, a) + Dot(v, b)
  {
    hide *;
    DotPlus(a, b, v);
    DotCommutes(v, Plus(a, b));
    DotCommutes(v, a);
    DotCommutes(v, b);
  }

  lemma {:induction false} DotScale(c: real, a: Vec, v: Vec)
    requires |a| == |v|
    ensures Dot(Scale(c, a), v) == Times(c, Dot(a, v))
  {
    if a != [] {
      hide *;
      var n := |a| - 1;
      DotScale(c, a[..n], v[..n]);
      assert Scale(c, a)[..n] == Scale(c, a[..n]);
      DotLast(a, v, n);
      DotLast(Scale(c, a), v, n);
      TimesLaws(Dot(a[..n], v[..n]), Times(a[n], v[n]), c);
      TimesLaws(c, a[n], v[n]);
    }
  }

  lemma DotScaleRight(v: Vec, c: real, a: Vec)
    requires |a| == |v|
    ensures Dot(v, Scale(c, a)) == Times(c, Dot(v, a))
  {
    hide *;
    DotScale(c, a, v);
    DotCommutes(v, Scale(c, a));
    DotCommutes(v, a);
  }

  lemma {:induction false} DotZero(v: Vec)
    ensures Dot(Zero(|v|), v) == 0.0
  {
    if v != [] {
      assert Zero(|v|)[..|v| - 1] == Zero(|v| - 1);
      DotZero(v[..|v| - 1]);
    }
  }

  lemma {:induction false} DotUnit(n: nat, i: nat, c: real, v: Vec)
    requires |v| == n && i < n
    ensures Dot(Unit(n, i, c), v) == Times(c, v[i])
  {
    var m := n - 1;
    if i == m {
      assert Unit(n, i, c)[..m] == Zero(m);
      DotZero(v[..m]);
    } else {
      assert Unit(n, i, c)[..m] == Unit(m, i, c);
      DotUnit(m, i, c, v[..m]);
    }
  }

  lemma {:induction false} DotSelfNonNegative(v: Vec)
    ensures Dot(v, v) >= 0.0
  {
    if v != [] { DotSelfNonNegative(v[..|v| - 1]); }
  }

  // ---------------------------------------------------------------- symmetric matrices

  // The combination v[0] * rows[0] + v[1] * rows[1] + ... of rows of length n.
  function Combine(n: nat, v: Vec, rows: Mat): (r: Vec)
    requires |v| == |rows| && forall i :: 0 <= i < |rows| ==> |rows[i]| == n
    ensures |r| == n
  {
    if v == [] then Zero(n)
    else Plus(Combine(n, v[..|v| - 1], rows[..|v| - 1]), Scale(v[|v| - 1], rows[|v| - 1]))
  }

  function Products(rows: Mat, x: Vec): (r: Vec)
    requires forall i :: 0 <= i < |rows| ==> |rows[i]| == |x|
    ensures |r| == |rows| && forall i :: 0 <= i < |rows| ==> r[i] == Dot(rows[i], x)
  {
    seq(|rows|, i requires 0 <= i < |rows| => Dot(rows[i], x))
  }

  function Column(rows: Mat, j: nat): (r: Vec)
    requires forall i :: 0 <= i < |rows| ==> j < |rows[i]|
    ensures |r| == |rows| && forall i :: 0 <= i < |rows| ==> r[i] == rows[i][j]
  {
    seq(|rows|, i requires 0 <= i < |rows| => rows[i][j])
  }

  lemma {:induction false} DotCombine(n: nat, v: Vec, rows: Mat, x: Vec)
    requires |v| == |rows| && |x| == n && forall i :: 0 <= i < |rows| ==> |rows[i]| == n
    ensures Dot(Combine(n, v, rows), x) == Dot(v, Products(rows, x))
  {
    if v == [] {
      DotZero(x);
    } else {
      hide Dot, Times;
      var m := |v| - 1;
      DotCombine(n, v[..m], rows[..m], x);
      DotPlus(Combine(n, v[..m], rows[..m]), Scale(v[m], rows[m]), x);
      DotScale(v[m], rows[m], x);
      DotLast(v, Products(rows, x), m);
      assert Products(rows, x)[..m] == Products(rows[..m], x);
    }
  }

  lemma {:induction false} CombineEntry(n: nat, v: Vec, rows: Mat, j: nat)
    requires |v| == |rows| && j < n && forall i :: 0 <= i < |rows| ==> |rows[i]| == n
    ensures Combine(n, v, rows)[j] == Dot(v, Column(rows, j))
  {
    if v != [] {
      var m := |v| - 1;
      CombineEntry(n, v[..m], rows[..m], j);
      assert Column(rows, j)[..m] == Column(rows[..m], j);
    }
  }

  // A symmetric matrix moves freely from one side of a dot product to the other.
  lemma SelfAdjoint(p: Mat, v: Vec, x: Vec)
    requires |v| == |x| && Square(|x|, p) && Symmetric(|x|, p)
    ensures Dot(v, MatVec(p, x)) == Dot(MatVec(p, v), x)
  {
    var n := |x|;
    DotCombine(n, v, p, x);
    assert Products(p, x) == MatVec(p, x);
    forall j | 0 <= j < n ensures Combine(n, v, p)[j] == MatVec(p, v)[j]
    {
      CombineEntry(n, v, p, j);
      assert Column(p, j) == p[j];
      DotCommutes(v, p[j]);
    }
    assert Combine(n, v, p) == MatVec(p, v);
  }

  lemma AddOuterEntry(m: Mat, k: Vec, u: Vec, i: nat, j: nat)
    requires |k| == |u| && Square(|u|, m) && i < |u| && j < |u|
    ensures AddOuter(m, k, u)[i][j] == m[i][j] + Times(k[i], u[j])
  {
    assert AddOuter(m, k, u)[i] == Plus(m[i], Scale(k[i], u));
  }

  // m + (c * u) * u^T stays symmetric.
  lemma OuterSymmetric(m: Mat, c: real, u: Vec)
    requires Square(|u|, m) && Symmetric(|u|, m)
    ensures Symmetric(|u|, AddOuter(m, Scale(c, u), u))
  {
    var r := AddOuter(m, Scale(c, u), u);
    forall i, j | 0 <= i < |u| && 0 <= j < |u| ensures r[i][j] == r[j][i]
    {
      AddOuterEntry(m, Scale(c, u), u, i, j);
      AddOuterEntry(m, Scale(c, u), u, j, i);
      TimesLaws(c, u[i], u[j]);
      TimesLaws(c, u[j], u[i]);
      TimesLaws(u[i], u[j], c);
    }
  }

  lemma MatVecOuter(m: Mat, k: Vec, u: Vec, v: Vec)
    requires |k| == |u| == |v| && Square(|u|, m)
    ensures MatVec(AddOuter(m, k, u), v) == Plus(MatVec(m, v), Scale(Dot(u, v), k))
  {
    hide Dot, Times;
    forall i | 0 <= i < |u|
      ensures MatVec(AddOuter(m, k, u), v)[i] == Plus(MatVec(m, v), Scale(Dot(u, v), k))[i]
    {
      DotPlus(m[i], Scale(k[i], u), v);
      DotScale(k[i], u, v);
      TimesLaws(k[i], Dot(u, v), 0.0);
    }
  }

  lemma MatVecPlus(m: Mat, a: Vec, b: Vec)
    requires |a| == |b| && Square(|a|, m)
    ensures MatVec(m, Plus(a, b)) == Plus(MatVec(m, a), MatVec(m, b))
  {
    hide Dot, Times;
    forall i | 0 <= i < |a| ensures MatVec(m, Plus(a, b))[i] == Plus(MatVec(m, a), MatVec(m, b))[i]
    {
      DotPlusRight(m[i], a, b);
    }
  }

  lemma MatVecScale(m: Mat, c: real, a: Vec)
    requires Square(|a|, m)
    ensures MatVec(m, Scale(c, a)) == Scale(c, MatVec(m, a))
  {
    hide Dot, Times;
    forall i | 0 <= i < |a| ensures MatVec(m, Scale(c, a))[i] == Scale(c, MatVec(m, a))[i]
    {
      DotScaleRight(m[i], c, a);
    }
  }

  // ---------------------------------------------------------------- inverses

  // p * x really is the solution of a * q == x.
  lemma InverseSolves(a: Mat, p: Mat, x: Vec)
    requires Square(|x|, a) && Square(|x|, p) && Symmetric(|x|, p) && Inverse(|x|, a, p)
    ensures MatVec(a, MatVec(p, x)) == x
  {
    forall i | 0 <= i < |x| ensures MatVec(a, MatVec(p, x))[i] == x[i]
    {
      SelfAdjoint(p, a[i], x);
      forall j | 0 <= j < |x| ensures MatVec(p, a[i])[j] == Unit(|x|, i, 1.0)[j]
      {
        DotCommutes(p[j], a[i]);
      }
      assert MatVec(p, a[i]) == Unit(|x|, i, 1.0);
      DotUnit(|x|, i, 1.0, x);
    }
  }

  // One inverse only: two symmetric inverses of the same matrix coincide.
  lemma InverseUnique(n: nat, a: Mat, p: Mat, q: Mat)
    requires Square(n, a) && Square(n, p) && Square(n, q) && Symmetric(n, a) && Symmetric(n, p) && Symmetric(n, q)
    requires Inverse(n, a, p) && Inverse(n, a, q)
    ensures p == q
  {
    hide Dot, Times;
    forall i, j | 0 <= i < n && 0 <= j < n ensures p[i][j] == q[i][j]
    {
      SameEntry(n, a, p, q, i, j);
    }
    forall i | 0 <= i < n ensures p[i] == q[i] {}
  }

  // (a * q[i]) . p[j] == q[i] . (a * p[j])
  lemma SameEntry(n: nat, a: Mat, p: Mat, q: Mat, i: nat, j: nat)
    requires Square(n, a) && Square(n, p) && Square(n, q) && Symmetric(n, a) && Symmetric(n, p)
    requires Inverse(n, a, p) && Inverse(n, a, q) && i < n && j < n
    ensures p[i][j] == q[i][j]
  {
    hide Dot, Times;
    SelfAdjoint(a, q[i], p[j]);
    RowOfInverse(n, a, p, j);
    RowOfInverse(n, a, q, i);
    DotUnit(n, i, 1.0, p[j]);
    DotCommutes(q[i], Unit(n, j, 1.0));
    DotUnit(n, j, 1.0, q[i]);
    TimesLaws(p[j][i], 0.0, 0.0);
    TimesLaws(q[i][j], 0.0, 0.0);
  }

  lemma RowOfInverse(n: nat, a: Mat, p: Mat, j: nat)
    requires Square(n, a) && Square(n, p) && Inverse(n, a, p) && j < n
    ensures MatVec(a, p[j]) == Unit(n, j, 1.0)
  {
    hide Dot, Times;
  }

  /**
   Sherman-Morrison: adding x * x^T to a matrix adds g * q^T to its inverse, with q = p * x and
   (1 + x . q) * g + q == 0.
   */
  lemma ShermanMorrison(a: Mat, p: Mat, x: Vec, g: Vec, q: Vec, d: real)
    requires Square(|x|, a) && Square(|x|, p) && Symmetric(|x|, p) && Inverse(|x|, a, p)
    requires |g| == |x| && q == MatVec(p, x) && d == 1.0 + Dot(x, q) && Plus(Scale(d, g), q) == Zero(|x|)
    ensures Inverse(|x|, AddOuter(a, x, x), AddOuter(p, g, q))
  {
    hide Dot, Times, MatVec, AddOuter, Scale;
    InverseSolves(a, p, x);
    forall i, j | 0 <= i < |x| && 0 <= j < |x|
      ensures Dot(AddOuter(a, x, x)[i], AddOuter(p, g, q)[j]) == if i == j then 1.0 else 0.0
    {
      assert Dot(a[i], q) == x[i] by { assert MatVec(a, q)[i] == x[i]; }
      assert Dot(x, p[j]) == q[j] by { DotCommutes(x, p[j]); }
      GainEntry(d, g, q, j);
      Solve(d, Dot(x, q), g[j], q[j]);
      ProductEntry(a[i], x[i], x, p[j], g[j], q);
    }
  }

  lemma GainEntry(d: real, g: Vec, q: Vec, j: nat)
    requires |g| == |q| && j < |q| && Plus(Scale(d, g), q) == Zero(|q|)
    ensures Times(d, g[j]) == -q[j]
  {
    hide Times;
    assert Plus(Scale(d, g), q)[j] == 0.0;
  }

  lemma ProductEntry(a: Vec, c: real, x: Vec, p: Vec, g: real, q: Vec)
    requires |a| == |x| == |p| == |q|
    requires Dot(a, q) == c && Dot(x, p) + Times(g, Dot(x, q)) == -g
    ensures Dot(Plus(a, Scale(c, x)), Plus(p, Scale(g, q))) == Dot(a, p)
  {
    hide *;
    var r := Plus(p, Scale(g, q));
    assert Dot(Plus(a, Scale(c, x)), r) == Dot(a, r) + Times(c, Dot(x, r)) by {
      DotPlus(a, Scale(c, x), r);
      DotScale(c, x, r);
    }
    assert Dot(a, r) == Dot(a, p) + Times(g, c) by {
      DotPlusRight(a, p, Scale(g, q));
      DotScaleRight(a, g, q);
    }
    var d := Dot(x, r);
    assert d == -g by {
      DotPlusRight(x, p, Scale(g, q));
      DotScaleRight(x, g, q);
    }
    Cancel(c, g, d);
  }

  lemma Solve(d: real, s: real, g: real, t: real)
    requires d == 1.0 + s && Times(d, g) == -t
    ensures t + Times(g, s) == -g
  {
  }

  lemma Cancel(c: real, g: real, d: real)
    requires d == -g
    ensures Times(g, c) + Times(c, d) == 0.0
  {
  }
}

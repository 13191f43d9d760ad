/** Sums over the entries of a finite map, in no particular order. */
module MapSum {

  ghost function Sum<K, V>(m: map<K, V>, f: (K, V) -> int): int {
    if m == map[] then 0 else
      var k :| k in m;
      f(k, m[k]) + Sum(m - {k}, f)
  }

  // Any entry may be taken out first, so the order of iteration does not matter.
  lemma {:induction false} SumTakeOut<K, V>(m: map<K, V>, f: (K, V) -> int, k: K)
    requires k in m
    ensures Sum(m, f) == f(k, m[k]) + Sum(m - {k}, f)
    decreases |m|
  {
    var j :| j in m && Sum(m, f) == f(j, m[j]) + Sum(m - {j}, f);
    if j != k {
      SumTakeOut(m - {j}, f, k);
      SumTakeOut(m - {k}, f, j);
      assert m - {j} - {k} == m - {k} - {j};
    }
  }

  lemma SumPut<K, V>(m: map<K, V>, f: (K, V) -> int, k: K, v: V)
    ensures Sum(m[k := v], f) == Sum(m - {k}, f) + f(k, v)
  {
    SumTakeOut(m[k := v], f, k);
    assert m[k := v] - {k} == m - {k};
  }

  lemma SumAbsent<K, V>(m: map<K, V>, f: (K, V) -> int, k: K)
    requires k !in m
    ensures Sum(m - {k}, f) == Sum(m, f)
  {
    assert m - {k} == m;
  }

  lemma {:induction false} SumBounds<K, V>(m: map<K, V>, f: (K, V) -> int, k: K)
    requires forall j :: j in m ==> f(j, m[j]) >= 0
    ensures Sum(m, f) >= 0
    ensures k in m ==> f(k, m[k]) <= Sum(m, f)
    decreases |m|
  {
    if m != map[] {
      var j := if k in m then k else var i :| i in m; i;
      SumTakeOut(m, f, j);
      SumBounds(m - {j}, f, k);
    }
  }

  lemma {:induction false} SumZero<K, V>(m: map<K, V>, f: (K, V) -> int)
    requires forall j :: j in m ==> f(j, m[j]) == 0
    ensures Sum(m, f) == 0
    decreases |m|
  {
    if m != map[] {
      var j :| j in m;
      SumTakeOut(m, f, j);
      SumZero(m - {j}, f);
    }
  }

  // A sum of non-negative terms is positive exactly when some term is.
  lemma {:induction false} SumPositive<K, V>(m: map<K, V>, f: (K, V) -> int)
    requires forall j :: j in m ==> f(j, m[j]) >= 0
    ensures Sum(m, f) > 0 <==> exists j :: j in m && f(j, m[j]) > 0
  {
    if Sum(m, f) > 0 {
      if forall j :: j in m ==> f(j, m[j]) == 0 { SumZero(m, f); }
    }
    forall j | j in m && f(j, m[j]) > 0 ensures Sum(m, f) > 0 { SumBounds(m, f, j); }
  }

  // Terms that split in two split the sum in two.
  lemma {:induction false} SumSplit<K, V>(m: map<K, V>, f: (K, V) -> int, g: (K, V) -> int, h: (K, V) -> int)
    requires forall j :: j in m ==> f(j, m[j]) == g(j, m[j]) + h(j, m[j])
    ensures Sum(m, f) == Sum(m, g) + Sum(m, h)
    decreases |m|
  {
    if m != map[] {
      var j :| j in m;
      SumTakeOut(m, f, j);
      SumTakeOut(m, g, j);
      SumTakeOut(m, h, j);
      SumSplit(m - {j}, f, g, h);
    }
  }

  // Maps that differ only in terms worth nothing have the same sum.
  lemma {:induction false} SumSame<K, V>(m: map<K, V>, n: map<K, V>, f: (K, V) -> int)
    requires forall j :: j in n ==> j in m && f(j, n[j]) == f(j, m[j])
    requires forall j :: j in m && j !in n ==> f(j, m[j]) == 0
    ensures Sum(m, f) == Sum(n, f)
    decreases |m|
  {
    if m != map[] {
      var j :| j in m;
      SumTakeOut(m, f, j);
      if j in n {
        SumTakeOut(n, f, j);
        SumSame(m - {j}, n - {j}, f);
      } else {
        SumSame(m - {j}, n, f);
      }
    }
  }
}

/**
 The rolling z-score: mean and sum of squared deviations of the last `window` values, maintained in
 constant time per value over a circular buffer.  Doubles are exact reals here.
 */
module ZScore {
  import opened Ring

  // ---------------------------------------------------------------- the slow form

  function Sum(s: seq<real>): real {
    if s == [] then 0.0 else Sum(s[..|s| - 1]) + s[|s| - 1]
  }

  function SumSquares(s: seq<real>): real {
    if s == [] then 0.0 else SumSquares(s[..|s| - 1]) + s[|s| - 1] * s[|s| - 1]
  }

  // The sum of squared deviations from m.
  function Deviations(s: seq<real>, m: real): real {
    if s == [] then 0.0 else Deviations(s[..|s| - 1], m) + (s[|s| - 1] - m) * (s[|s| - 1] - m)
  }

  // The last min(|history|, window) values.
  function Recent(history: seq<real>, window: nat): seq<real> {
    if |history| <= window then history else history[|history| - window..]
  }

  // ---------------------------------------------------------------- sums

  lemma Last(s: seq<real>, n: nat, m: real)
    requires |s| == n + 1
    ensures Sum(s) == Sum(s[..n]) + s[n]
    ensures SumSquares(s) == SumSquares(s[..n]) + s[n] * s[n]
    ensures Deviations(s, m) == Deviations(s[..n], m) + (s[n] - m) * (s[n] - m)
  {
  }

  lemma Empty(m: real)
    ensures Sum([]) == 0.0 && SumSquares([]) == 0.0 && Deviations([], m) == 0.0
  {
  }

  lemma {:induction false} DeviationsExpand(s: seq<real>, m: real)
    ensures Deviations(s, m) == SumSquares(s) - 2.0 * m * Sum(s) + |s| as real * m * m
  {
    hide *;
    if s == [] {
      Empty(m);
    } else {
      var n := |s| - 1;
      Last(s, n, m);
      DeviationsExpand(s[..n], m);
      ExpandStep(s[n], m, Sum(s[..n]), SumSquares(s[..n]), Deviations(s[..n], m), |s[..n]| as real,
                 Sum(s), SumSquares(s), Deviations(s, m), |s| as real);
    }
  }

  lemma ExpandStep(v: real, m: real, t: real, q: real, d: real, n: real, t': real, q': real, d': real, n': real)
    requires d == q - 2.0 * m * t + n * m * m
    requires t' == t + v && q' == q + v * v && d' == d + (v - m) * (v - m) && n' == n + 1.0
    ensures d' == q' - 2.0 * m * t' + n' * m * m
  {
    assert (v - m) * (v - m) == v * v - 2.0 * m * v + m * m;
    assert n' * m * m == n * m * m + m * m;
    assert 2.0 * m * t' == 2.0 * m * t + 2.0 * m * v;
  }

  lemma SquareNonNegative(x: real)
    ensures x * x >= 0.0
  {
  }

  lemma {:induction false} DeviationsNonNegative(s: seq<real>, m: real)
    ensures Deviations(s, m) >= 0.0
  {
    if s != [] {
      DeviationsNonNegative(s[..|s| - 1], m);
      SquareNonNegative(s[|s| - 1] - m);
    }
  }

  lemma {:induction false} DropFirst(s: seq<real>)
    requires s != []
    ensures Sum(s) == s[0] + Sum(s[1..]) && SumSquares(s) == s[0] * s[0] + SumSquares(s[1..])
  {
    var n := |s| - 1;
    if n > 0 {
      hide *;
      DropFirst(s[..n]);
      assert s[..n][1..] == s[1..][..n - 1];
      Last(s, n, 0.0);
      Last(s[1..], n - 1, 0.0);
    } else {
      assert s[1..] == [] && s[..0] == [];
    }
  }

  // (sum)^2 <= count * (sum of squares)
  lemma {:induction false} CauchySchwarz(s: seq<real>)
    ensures Sum(s) * Sum(s) <= |s| as real * SumSquares(s)
  {
    hide *;
    if s == [] {
      Empty(0.0);
    } else {
      var n := |s| - 1;
      Last(s, n, 0.0);
      CauchySchwarz(s[..n]);
      DeviationsExpand(s[..n], s[n]);
      DeviationsNonNegative(s[..n], s[n]);
      CauchyStep(Sum(s[..n]), SumSquares(s[..n]), s[n], |s[..n]| as real, Deviations(s[..n], s[n]),
                 Sum(s), SumSquares(s), |s| as real);
    }
  }

  lemma CauchyStep(t: real, q: real, v: real, n: real, d: real, t': real, q': real, n': real)
    requires t * t <= n * q && 0.0 <= d == q - 2.0 * v * t + n * v * v
    requires t' == t + v && q' == q + v * v && n' == n + 1.0
    ensures t' * t' <= n' * q'
  {
    assert t' * t' == t * t + 2.0 * v * t + v * v;
    assert n' * q' == n * q + q + n * v * v + v * v;
  }

  // ---------------------------------------------------------------- the accumulators

  // mean and m2 are the mean and the sum of squared deviations of s.
  ghost predicate Summarises(mean: real, m2: real, s: seq<real>) {
    |s| as real * mean == Sum(s) && m2 == Deviations(s, mean)
  }

  // Deviations from the mean need only the two plain sums.
  lemma DeviationsAtMean(s: seq<real>, n: real, mean: real)
    requires n == |s| as real && n * mean == Sum(s)
    ensures Deviations(s, mean) == SumSquares(s) - mean * Sum(s)
  {
    hide *;
    DeviationsExpand(s, mean);
    AtMean(n, mean, Sum(s));
  }

  lemma AtMean(n: real, mean: real, t: real)
    requires n * mean == t
    ensures -2.0 * mean * t + n * mean * mean == -(mean * t)
  {
    assert n * mean * mean == t * mean;
  }

  // The plain sums of s give its mean and its squared deviations.
  lemma SummarisesBySums(s: seq<real>, n: real, mean: real, m2: real, t: real, q: real)
    requires n == |s| as real && t == Sum(s) && q == SumSquares(s)
    requires n * mean == t && m2 == q - mean * t
    ensures Summarises(mean, m2, s)
  {
    hide Sum, SumSquares, Deviations;
    DeviationsAtMean(s, n, mean);
  }

  lemma SumsOfSummary(s: seq<real>, n: real, mean: real, m2: real, t: real, q: real)
    requires n == |s| as real && t == Sum(s) && q == SumSquares(s) && Summarises(mean, m2, s)
    ensures n * mean == t && m2 == q - mean * t
  {
    hide Sum, SumSquares, Deviations;
    DeviationsAtMean(s, n, mean);
  }

  // The plain sums of s with v added, and with v in place of the first value.
  lemma SumsAdded(s: seq<real>, v: real, t: real, q: real)
    requires t == Sum(s) && q == SumSquares(s)
    ensures Sum(s + [v]) == t + v && SumSquares(s + [v]) == q + v * v
  {
    hide Sum, SumSquares;
    assert (s + [v])[..|s|] == s;
    Last(s + [v], |s|, 0.0);
  }

  lemma SumsSwapped(s: seq<real>, o: real, v: real, t: real, q: real)
    requires s != [] && o == s[0] && t == Sum(s) && q == SumSquares(s)
    ensures Sum(s[1..] + [v]) == t - o + v && SumSquares(s[1..] + [v]) == q - o * o + v * v
  {
    hide Sum, SumSquares;
    DropFirst(s);
    SumsAdded(s[1..], v, t - o, q - o * o);
  }

  lemma AddKeeps(s: seq<real>, c: real, mean: real, m2: real, v: real, mean': real, m2': real)
    requires c == (|s| + 1) as real && Summarises(mean, m2, s)
    requires mean' == mean + (v - mean) / c && m2' == m2 + (v - mean) * (v - mean')
    ensures Summarises(mean', m2', s + [v])
  {
    hide *;
    var n, t, q := |s| as real, Sum(s), SumSquares(s);
    SumsAdded(s, v, t, q);
    SumsOfSummary(s, n, mean, m2, t, q);
    AddScalars(n, c, mean, mean', v, t, q, m2, m2');
    SummarisesBySums(s + [v], c, mean', m2', t + v, q + v * v);
  }

  lemma AddScalars(n: real, c: real, mean: real, mean': real, v: real, t: real, q: real, m2: real, m2': real)
    requires n >= 0.0 && c == n + 1.0 && n * mean == t && mean' == mean + (v - mean) / c
    requires m2 == q - mean * t && m2' == m2 + (v - mean) * (v - mean')
    ensures c * mean' == t + v && m2' == q + v * v - mean' * (t + v)
  {
    assert c * ((v - mean) / c) == v - mean;
    assert c * mean' == t + v;
    assert mean * (c * mean') == mean * (t + v);
    assert mean' * (n * mean) == mean' * t;
  }

  lemma SwapKeeps(s: seq<real>, n: real, o: real, mean: real, m2: real, v: real, mean': real, m2': real)
    requires s != [] && n == |s| as real && o == s[0] && Summarises(mean, m2, s)
    requires mean' == mean + (v - o) / n && m2' == m2 + (v - o) * (v - mean' + o - mean)
    ensures Summarises(mean', m2', s[1..] + [v])
  {
    hide *;
    var t, q := Sum(s), SumSquares(s);
    SumsSwapped(s, o, v, t, q);
    SumsOfSummary(s, n, mean, m2, t, q);
    SwapScalars(n, mean, mean', v, o, t, q, m2, m2');
    SummarisesBySums(s[1..] + [v], n, mean', m2', t - o + v, q - o * o + v * v);
  }

  lemma SwapScalars(n: real, mean: real, mean': real, v: real, o: real, t: real, q: real, m2: real, m2': real)
    requires n > 0.0 && n * mean == t && mean' == mean + (v - o) / n
    requires m2 == q - mean * t && m2' == m2 + (v - o) * (v - mean' + o - mean)
    ensures n * mean' == t - o + v && m2' == q - o * o + v * v - mean' * (t - o + v)
  {
    assert n * ((v - o) / n) == v - o;
    assert n * mean' == t - o + v;
    assert mean * (n * mean') == mean * (t - o + v);
    assert mean' * (n * mean) == mean' * t;
    assert (v - o) * (v - mean' + o - mean) == v * v - o * o - (v - o) * mean' - (v - o) * mean;
  }

  /** Samuelson's bound for the newest value: count * (v - mean)^2 <= (count - 1) * m2, so |z| <= sqrt(count - 1). */
  lemma NewestBounded(s: seq<real>, mean: real, m2: real)
    requires s != [] && Summarises(mean, m2, s)
    ensures |s| as real * (s[|s| - 1] - mean) * (s[|s| - 1] - mean) <= (|s| - 1) as real * m2
  {
    hide Sum, SumSquares, Deviations;
    var n := |s| - 1;
    Last(s, n, mean);
    ShiftedCauchy(s[..n], mean);
    var rest := Deviations(s[..n], mean);
    NewestScalars(|s| as real, n as real, mean, s[n], rest, m2, Sum(s[..n]) - n as real * mean, Sum(s[..n]));
  }

  // The Cauchy-Schwarz bound for deviations from any point.
  lemma ShiftedCauchy(s: seq<real>, m: real)
    ensures (Sum(s) - |s| as real * m) * (Sum(s) - |s| as real * m) <= |s| as real * Deviations(s, m)
  {
    hide *;
    CauchySchwarz(s);
    DeviationsExpand(s, m);
    ShiftScalars(|s| as real, m, Sum(s), SumSquares(s), Deviations(s, m));
  }

  lemma ShiftScalars(n: real, m: real, t: real, q: real, d: real)
    requires t * t <= n * q && d == q - 2.0 * m * t + n * m * m
    ensures (t - n * m) * (t - n * m) <= n * d
  {
    assert (t - n * m) * (t - n * m) == t * t - 2.0 * (n * m * t) + n * m * (n * m);
    assert n * d == n * q - 2.0 * (n * m * t) + n * m * (n * m);
  }

  lemma NewestScalars(n': real, n: real, mean: real, v: real, q: real, m2: real, t: real, u: real)
    requires n' == n + 1.0 && t == u - n * mean && n' * mean == u + v
    requires t * t <= n * q && m2 == q + (v - mean) * (v - mean)
    ensures n' * (v - mean) * (v - mean) <= n * m2
  {
    var d := v - mean;
    assert n' * mean == n * mean + mean;
    assert t == -d && t * t == d * d;
    assert n' * d * d == n * (d * d) + d * d;
    assert n * m2 == n * q + n * (d * d);
  }

  // ---------------------------------------------------------------- the indicator object

  // std::sqrt, which is not part of this model: any function that returns the non-negative square root.
  ghost predicate IsSquareRoot(root: real -> real) {
    forall v: real :: v >= 0.0 ==> root(v) >= 0.0 && root(v) * root(v) == v
  }

  // z is the score of `value` against its window: zero without a spread, else the deviation in units of the
  // standard deviation.  It obeys |z| <= sqrt(count - 1).
  ghost predicate Scores(z: real, value: real, mean: real, m2: real, count: nat, root: real -> real) {
    && (count < 2 || m2 == 0.0 ==> z == 0.0)
    && (count >= 2 && m2 != 0.0 ==> z * root(m2 / count as real) == value - mean && root(m2 / count as real) > 0.0)
    && (count >= 1 ==> z * z <= (count - 1) as real)
  }

  // The last `count` values sit in the circular buffer, each at its own slot.
  ghost predicate Buffered(buf: seq<real>, history: seq<real>, count: nat) {
    |buf| > 0 && count <= |history| &&
    forall k: nat :: |history| - count <= k < |history| ==> buf[k % |buf|] == history[k]
  }

  lemma BufferedWrite(buf: seq<real>, history: seq<real>, count: nat, value: real, count': nat)
    requires Buffered(buf, history, count) && count' <= count + 1 && count' <= |buf|
    ensures Buffered(buf[|history| % |buf| := value], history + [value], count')
  {
    var n, w := |history|, |buf|;
    forall k: nat | n + 1 - count' <= k < n + 1
      ensures buf[n % w := value][k % w] == (history + [value])[k]
    {
      if k < n && k % w == n % w { SameSlot(k, n, w); }
    }
  }

  // How one more value moves the window.
  lemma RecentStep(history: seq<real>, value: real, window: nat)
    requires window >= 1
    ensures |history| < window ==> Recent(history + [value], window) == Recent(history, window) + [value]
    ensures |history| >= window ==>
      |Recent(history, window)| == window && Recent(history, window)[0] == history[|history| - window] &&
      Recent(history + [value], window) == Recent(history, window)[1..] + [value]
  {
  }

  // The circular buffer, the window and the accumulators as plain values.
  ghost predicate Tracks(buf: seq<real>, head: nat, count: nat, mean: real, m2: real, history: seq<real>) {
    && |buf| >= 1 && head == |history| % |buf| && count == |Recent(history, |buf|)|
    && Buffered(buf, history, count) && Summarises(mean, m2, Recent(history, |buf|))
  }

  // A value enters a window that is not full yet.
  lemma GrowTracks(buf: seq<real>, head: nat, count: nat, mean: real, m2: real, history: seq<real>, value: real,
                   mean': real, m2': real)
    requires Tracks(buf, head, count, mean, m2, history) && count < |buf|
    requires Summarises(mean', m2', Recent(history, |buf|) + [value])
    ensures Tracks(buf[head := value], (head + 1) % |buf|, count + 1, mean', m2', history + [value])
  {
    hide Summarises, Buffered;
    SlotSuccessor(|history|, |buf|);
    RecentStep(history, value, |buf|);
    BufferedWrite(buf, history, count, value, count + 1);
  }

  // A value replaces the oldest one of a full window, which sits at the head slot.
  lemma FullTracks(buf: seq<real>, head: nat, count: nat, mean: real, m2: real, history: seq<real>, value: real,
                   mean': real, m2': real)
    requires Tracks(buf, head, count, mean, m2, history) && count >= |buf|
    requires Summarises(mean', m2', Recent(history, |buf|)[1..] + [value])
    ensures Tracks(buf[head := value], (head + 1) % |buf|, count, mean', m2', history + [value])
  {
    hide Summarises, Buffered;
    SlotSuccessor(|history|, |buf|);
    RecentStep(history, value, |buf|);
    BufferedWrite(buf, history, count, value, count);
  }

  lemma OldestAtHead(buf: seq<real>, head: nat, count: nat, mean: real, m2: real, history: seq<real>)
    requires Tracks(buf, head, count, mean, m2, history) && count >= |buf|
    ensures |Recent(history, |buf|)| == count == |buf| && buf[head] == Recent(history, |buf|)[0]
  {
    hide Summarises;
    var n, w := |history|, |buf|;
    RecentStep(history, 0.0, w);
    ModShift(n - w, w);
    assert buf[(n - w) % w] == history[n - w];
  }

  class Indicator {
    const window: nat
    const buf: array<real>
    var head: nat
    var count: nat
    var mean: real
    var m2: real
    var zscore: real
    ghost var history: seq<real>

    ghost predicate Valid()
      reads this, buf
    {
      1 <= window == buf.Length && Tracks(buf[..], head, count, mean, m2, history)
    }

    constructor (size: nat)
      requires size >= 1
      ensures Valid() && history == [] && window == size && zscore == 0.0 && fresh(buf)
    {
      window, buf := size, new real[size](_ => 0.0);
      head, count, mean, m2, zscore, history := 0, 0, 0.0, 0.0, 0.0, [];
    }

    method Update(value: real, root: real -> real) returns (z: real)
      requires Valid() && IsSquareRoot(root)
      modifies this, buf
      ensures Valid() && history == old(history) + [value] && zscore == z
      ensures Scores(z, value, mean, m2, count, root)
    {
      hide Tracks, Summarises, Scores, IsSquareRoot, Recent;
      InRange(buf[..], head, count, mean, m2, history);
      ghost var recent, values := Recent(history, window), buf[..];
      var mean', m2' := mean, m2;
      if count < window {
        mean', m2' := AddValue(mean, m2, count + 1, value, recent);
        GrowTracks(values, head, count, mean, m2, history, value, mean', m2');
        buf[head] := value;
        head := (head + 1) % window;
        count := count + 1;
      } else {
        OldestAtHead(values, head, count, mean, m2, history);
        var oldVal := buf[head];
        mean', m2' := SwapValue(mean, m2, count, value, oldVal, recent);
        FullTracks(values, head, count, mean, m2, history, value, mean', m2');
        buf[head] := value;
        head := (head + 1) % window;
      }
      assert buf[..] == values[old(head) := value];
      mean, m2 := mean', m2';
      history := history + [value];
      NewestIsLast(buf[..], head, count, mean, m2, history);
      z := MakeScore(value, mean, m2, count, Recent(history, window), root);
      zscore := z;
    }
  }

  lemma InRange(buf: seq<real>, head: nat, count: nat, mean: real, m2: real, history: seq<real>)
    requires Tracks(buf, head, count, mean, m2, history)
    ensures head < |buf| && count == |Recent(history, |buf|)| <= |buf| && Summarises(mean, m2, Recent(history, |buf|))
  {
  }

  lemma NewestIsLast(buf: seq<real>, head: nat, count: nat, mean: real, m2: real, history: seq<real>)
    requires Tracks(buf, head, count, mean, m2, history) && history != []
    ensures count == |Recent(history, |buf|)| >= 1 && Recent(history, |buf|)[count - 1] == history[|history| - 1]
    ensures Summarises(mean, m2, Recent(history, |buf|))
  {
  }

  // The window is not full yet: a plain Welford addition.
  method AddValue(mean: real, m2: real, count: nat, value: real, ghost s: seq<real>) returns (mean': real, m2': real)
    requires count == |s| + 1 && Summarises(mean, m2, s)
    ensures Summarises(mean', m2', s + [value])
  {
    hide Sum, SumSquares, Deviations;
    var delta := value - mean;
    mean' := mean + delta / count as real;
    var delta2 := value - mean';
    m2' := m2 + delta * delta2;
    AddKeeps(s, count as real, mean, m2, value, mean', m2');
  }

  // The window is full: the oldest value leaves as the new one enters.  The guard never fires.
  method SwapValue(mean: real, m2: real, count: nat, value: real, oldVal: real, ghost s: seq<real>)
    returns (mean': real, m2': real)
    requires count == |s| >= 1 && oldVal == s[0] && Summarises(mean, m2, s)
    ensures Summarises(mean', m2', s[1..] + [value])
  {
    hide Sum, SumSquares, Deviations;
    var delta := value - oldVal;
    mean' := mean + delta / count as real;
    m2' := m2 + delta * (value - mean' + oldVal - mean);
    SwapKeeps(s, count as real, oldVal, mean, m2, value, mean', m2');
    DeviationsNonNegative(s[1..] + [value], mean');
    if m2' < 0.0 { m2' := 0.0; }
  }

  method MakeScore(value: real, mean: real, m2: real, count: nat, ghost s: seq<real>, root: real -> real)
    returns (z: real)
    requires count == |s| >= 1 && s[count - 1] == value && Summarises(mean, m2, s) && IsSquareRoot(root)
    ensures Scores(z, value, mean, m2, count, root)
  {
    hide Sum, SumSquares, Deviations;
    DeviationsNonNegative(s, mean);
    NewestBounded(s, mean, m2);
    hide Summarises;
    z := 0.0;
    if count >= 2 {
      var variance := m2 / count as real;
      BoundedRatio(count as real, value - mean, variance, m2);
      if variance > 0.0 {
        var deviation := root(variance);
        RootBound(count as real, value - mean, variance, deviation);
        z := (value - mean) / deviation;
      }
    }
  }

  lemma BoundedRatio(n: real, d: real, variance: real, m2: real)
    requires n >= 2.0 && m2 >= 0.0 && variance == m2 / n && n * d * d <= (n - 1.0) * m2
    ensures d * d <= (n - 1.0) * variance && (variance > 0.0 <==> m2 != 0.0)
  {
    assert variance * n == m2;
    assert n * (d * d) <= n * ((n - 1.0) * variance);
  }

  // Dividing the deviation by the root of the variance bounds its square.
  lemma RootBound(n: real, d: real, variance: real, r: real)
    requires variance > 0.0 && r >= 0.0 && r * r == variance && d * d <= (n - 1.0) * variance
    ensures r > 0.0 && d / r * r == d && (d / r) * (d / r) <= n - 1.0
  {
    assert r != 0.0;
    var z := d / r;
    assert z * r == d;
    Squares(z, r, d, variance);
    AtMost(z * z, n - 1.0, variance);
  }

  lemma Squares(z: real, r: real, d: real, v: real)
    requires z * r == d && r * r == v
    ensures z * z * v == d * d
  {
    assert z * z * (r * r) == (z * r) * (z * r);
  }

  lemma AtMost(a: real, b: real, v: real)
    requires v > 0.0 && a * v <= b * v
    ensures a <= b
  {
    var excess := (a - b) * v;
  }
}

/** The algebra behind a CIC filter, on unbounded integers: running sums, differences at a
    distance, moving sums and zero stuffing, and the identities by which a cascade of
    differences and running sums collapses to a cascade of moving sums.

    A stream is a function of the sample index that is zero before index 0. */
module MovingSums {
  import opened Registers

  type Stream = int -> int

  ghost predicate Causal(f: Stream) {
    forall n :: n < 0 ==> f(n) == 0
  }

  /** `f` summed from the start, `i` times over, at index `n`. */
  function RunningSum(f: Stream, i: nat, n: int): int
    decreases i, if n < 0 then 0 else n + 1
  {
    if i == 0 then f(n)
    else if n < 0 then 0
    else RunningSum(f, i, n - 1) + RunningSum(f, i - 1, n)
  }

  /** `f` summed `i` times and then differenced `j` times at distance `d`. */
  function Differenced(d: nat, f: Stream, j: nat, i: nat, n: int): int
    decreases j
  {
    if j == 0 then RunningSum(f, i, n)
    else Differenced(d, f, j - 1, i, n) - Differenced(d, f, j - 1, i, n - d)
  }

  /** `f` passed `k` times through a moving sum over the last `d` samples: the reference
      meaning of the whole filter, with no recursion on past outputs. */
  function MovingSum(d: nat, f: Stream, k: nat, n: int): int
    decreases k, 0
  {
    if k == 0 then f(n) else WindowSum(d, f, k - 1, n, d)
  }

  /** The last `c` values of the `k`-fold moving sum, added up. */
  function WindowSum(d: nat, f: Stream, k: nat, n: int, c: nat): int
    decreases k, c + 1
  {
    if c == 0 then 0 else WindowSum(d, f, k, n, c - 1) + MovingSum(d, f, k, n - (c - 1))
  }

  /** `f` with `r - 1` zeroes inserted after every sample. */
  function Stuffed(r: nat, f: Stream): Stream
    requires r >= 1
  {
    (n: int) => if n >= 0 && n % r == 0 then f(n / r) else 0
  }

  /** A finite recording as a stream. */
  function Recorded(xs: seq<int>): Stream {
    (n: int) => if 0 <= n < |xs| then xs[n] else 0
  }

  lemma RunningSumBeforeStart(f: Stream, i: nat, n: int)
    requires Causal(f) && n < 0
    ensures RunningSum(f, i, n) == 0
  {
  }

  lemma {:induction false} DifferencedBeforeStart(d: nat, f: Stream, j: nat, i: nat, n: int)
    requires Causal(f) && n < 0
    ensures Differenced(d, f, j, i, n) == 0
  {
    if j == 0 {
      RunningSumBeforeStart(f, i, n);
    } else {
      DifferencedBeforeStart(d, f, j - 1, i, n);
      DifferencedBeforeStart(d, f, j - 1, i, n - d);
    }
  }

  /** One step of a running sum adds the input, also underneath any number of differences. */
  lemma {:induction false} SumStep(d: nat, f: Stream, j: nat, i: nat, n: int)
    requires Causal(f) && i >= 1
    ensures Differenced(d, f, j, i, n) == Differenced(d, f, j, i, n - 1) + Differenced(d, f, j, i - 1, n)
    decreases j
  {
    if j == 0 {
      if n < 0 {
        RunningSumBeforeStart(f, i, n);
        RunningSumBeforeStart(f, i, n - 1);
        RunningSumBeforeStart(f, i - 1, n);
      }
    } else {
      SumStep(d, f, j - 1, i, n);
      SumStep(d, f, j - 1, i, n - d);
      assert n - d - 1 == n - 1 - d;
    }
  }

  /** Hogenauer's cancellation: `k` running sums followed by `k` differences at distance `d`
      are `k` moving sums over `d` samples. */
  lemma {:induction false} SumsAndDifferencesCancel(d: nat, f: Stream, k: nat, n: int)
    requires Causal(f)
    ensures Differenced(d, f, k, k, n) == MovingSum(d, f, k, n)
    decreases k, 0
  {
    if k > 0 { DifferenceTelescopes(d, f, k - 1, n, d); }
  }

  lemma {:induction false} DifferenceTelescopes(d: nat, f: Stream, k: nat, n: int, c: nat)
    requires Causal(f)
    ensures Differenced(d, f, k, k + 1, n) - Differenced(d, f, k, k + 1, n - c) == WindowSum(d, f, k, n, c)
    decreases k, c + 1
  {
    if c > 0 {
      DifferenceTelescopes(d, f, k, n, c - 1);
      SumStep(d, f, k, k + 1, n - (c - 1));
      SumsAndDifferencesCancel(d, f, k, n - (c - 1));
      assert n - (c - 1) - 1 == n - c;
    }
  }

  /** Differences at the low rate, before stuffing, are differences `r` times as far apart
      after stuffing. */
  lemma {:induction false} StuffingScalesDistance(r: nat, d: nat, f: Stream, j: nat, n: int)
    requires r >= 1 && Causal(f)
    ensures Differenced(r * d, Stuffed(r, f), j, 0, n)
         == if n % r == 0 then Differenced(d, f, j, 0, n / r) else 0
    decreases j
  {
    if j == 0 {
      if n < 0 && n % r == 0 {
        assert n / r < 0;
      }
    } else {
      StuffingScalesDistance(r, d, f, j - 1, n);
      StuffingScalesDistance(r, d, f, j - 1, n - r * d);
      var q, m := n / r, n % r;
      assert n == q * r + m;
      assert n - r * d == (q - d) * r + m;
      RemainderUnique(n - r * d, q - d, m, r);
    }
  }

  // ---- how large the values can get

  lemma {:induction false} WindowSumBound(d: nat, f: Stream, k: nat, n: int, c: nat, b: nat)
    requires forall m :: InRange(MovingSum(d, f, k, m), b)
    ensures -(c * b) <= WindowSum(d, f, k, n, c) <= c * b - c
    decreases c
  {
    if c > 0 {
      WindowSumBound(d, f, k, n, c - 1, b);
      assert InRange(MovingSum(d, f, k, n - (c - 1)), b);
      assert c * b == (c - 1) * b + b;
    }
  }

  lemma {:induction false} MovingSumBound(d: nat, f: Stream, k: nat, n: int, b: nat)
    requires d >= 1 && forall m :: InRange(f(m), b)
    ensures InRange(MovingSum(d, f, k, n), Pow(d, k) * b)
    decreases k
  {
    if k > 0 {
      var h, g := k - 1, Pow(d, k - 1) * b;
      forall m ensures InRange(MovingSum(d, f, h, m), g) {
        MovingSumBound(d, f, h, m, b);
      }
      WindowSumBound(d, f, h, n, d, g);
      assert d * g == Pow(d, k) * b by {
        var p := Pow(d, h);
        assert d * (p * b) == (d * p) * b;
      }
    }
  }

  /** Every further difference at most doubles a value. */
  lemma {:induction false} DifferencedBound(d: nat, f: Stream, j: nat, i: nat, n: int, b: nat)
    requires j >= i && forall m :: InRange(Differenced(d, f, i, i, m), b)
    ensures InRange(Differenced(d, f, j, i, n), Pow2(j - i) * b)
    decreases j
  {
    if j > i {
      DifferencedBound(d, f, j - 1, i, n, b);
      DifferencedBound(d, f, j - 1, i, n - d, b);
      assert Pow2(j - i) * b == 2 * (Pow2(j - 1 - i) * b);
    }
  }

  /** A window of `r` stuffed samples holds exactly one input sample. */
  lemma {:induction false} StuffedWindow(r: nat, d: nat, f: Stream, n: int, c: nat)
    requires r >= 1 && c <= r && Causal(f)
    ensures WindowSum(d, Stuffed(r, f), 0, n, c) == if n % r < c then f(n / r) else 0
    decreases c
  {
    if c > 0 {
      StuffedWindow(r, d, f, n, c - 1);
      var q, m, e := n / r, n % r, n - (c - 1);
      assert n == q * r + m;
      assert MovingSum(d, Stuffed(r, f), 0, e) == Stuffed(r, f)(e);
      if m >= c - 1 {
        RemainderUnique(e, q, m - (c - 1), r);
      } else {
        RemainderUnique(e, q - 1, m - (c - 1) + r, r);
      }
      if e < 0 && e % r == 0 { assert e / r < 0; }
    }
  }

  lemma {:induction false} WindowSumSplit(d: nat, f: Stream, k: nat, n: int, a: nat, c: nat)
    ensures WindowSum(d, f, k, n, a + c) == WindowSum(d, f, k, n, a) + WindowSum(d, f, k, n - a, c)
    decreases c
  {
    if c > 0 {
      WindowSumSplit(d, f, k, n, a, c - 1);
      assert n - a - (c - 1) == n - (a + c - 1);
    }
  }

  /** A window of `r * m` stuffed samples holds exactly `m` input samples, so stuffing costs
      the first moving sum a factor of `r`. */
  lemma {:induction false} StuffedBlocksBound(r: nat, d: nat, f: Stream, n: int, m: nat, b: nat)
    requires r >= 1 && Causal(f) && forall k :: InRange(f(k), b)
    ensures -(m * b) <= WindowSum(d, Stuffed(r, f), 0, n, r * m) <= m * b - m
    decreases m
  {
    if m > 0 {
      StuffedBlocksBound(r, d, f, n - r, m - 1, b);
      StuffedWindow(r, d, f, n, r);
      assert InRange(f(n / r), b);
      hide WindowSum, MovingSum, Stuffed;
      var e := r * (m - 1);
      assert r * m == r + e;
      WindowSumSplit(d, Stuffed(r, f), 0, n, r, e);
      assert m * b == (m - 1) * b + b;
    }
  }

  /** The gain of `k >= 1` moving sums over `r * m` stuffed samples is `(r * m)^(k - 1) * m`. */
  lemma {:induction false} StuffedMovingSumBound(r: nat, m: nat, f: Stream, k: nat, n: int, b: nat)
    requires r >= 1 && m >= 1 && k >= 1 && Causal(f) && forall l :: InRange(f(l), b)
    ensures InRange(MovingSum(r * m, Stuffed(r, f), k, n), Pow(r * m, k - 1) * (m * b))
    decreases k
  {
    var s := Stuffed(r, f);
    if k == 1 {
      StuffedBlocksBound(r, r * m, f, n, m, b);
    } else {
      var d, h, g := r * m, k - 1, Pow(r * m, k - 2) * (m * b);
      forall l ensures InRange(MovingSum(d, s, h, l), g) {
        StuffedMovingSumBound(r, m, f, h, l, b);
      }
      WindowSumBound(d, s, h, n, d, g);
      assert d * g == Pow(d, k - 1) * (m * b);
      assert d >= 1;
    }
  }
}

/** The receive-side CIC filter: accumulators at the high rate, a downsampler, combs at the
    low rate and a truncator.  The accumulators overflow without limit; all registers share
    one width, and that width alone makes the output exact. */
module CicDecimator {
  import opened Registers
  import opened MovingSums
  import opened Dsp

  datatype Downsampler = Downsampler(out: Sig, cnt: nat)

  datatype Regs = Regs(accums: seq<Sig>, down: Downsampler, combs: seq<Comb>, out: Sig)

  // ---- the register width

  function CicDecimMaxBits(inLen: Positive, decim: Positive, order: Positive, delay: Positive): nat {
    GainPositive(decim, delay, order);
    CeilLog2(Pow(decim * delay, order)) + inLen - 1
  }

  function CicDecimRegisterWidth(inLen: Positive, decim: Positive, order: Positive, delay: Positive): Positive {
    CicDecimMaxBits(inLen, decim, order, delay) + 3
  }

  lemma GainPositive(decim: Positive, delay: Positive, order: nat)
    ensures decim * delay >= 1 && Pow(decim * delay, order) >= 1
  {
    MulMonotone(1, decim, 1, delay);
  }

  function Built(order: Positive, delay: Positive, inLen: Positive, outLen: Positive, maxRate: Positive): Config {
    Config(order, delay, seq(2 * order + 1, _ => CicDecimRegisterWidth(inLen, maxRate, order, delay)), outLen)
  }

  // ---- one clock edge

  function DownsamplerStep(d: Downsampler, input: Sig, decim: Positive): Downsampler {
    if !input.valid then Downsampler(IDLE, decim - 1)
    else if d.cnt == 0 then Downsampler(Sig(true, input.value), decim - 1)
    else Downsampler(IDLE, d.cnt - 1)
  }

  /** The truncator keeps the top `outLen` bits of its `w`-bit input. */
  ghost function TruncatorStep(w: Positive, outLen: Positive, input: Sig): Sig {
    if input.valid && w >= outLen then Sig(true, Wrap(outLen, input.value / Pow2(w - outLen))) else IDLE
  }

  ghost predicate Shaped(c: Config, r: Regs) {
    CombsShaped(c, r.combs) && |r.accums| == c.order
  }

  ghost function Step(c: Config, r: Regs, input: Sig, decim: Positive): (r': Regs)
    requires Shaped(c, r)
    ensures Shaped(c, r')
  {
    CombsStepShaped(c, c.order, r.combs, r.down.out);
    Regs(AccumsStep(c, 0, r.accums, input),
         DownsamplerStep(r.down, r.accums[c.order - 1], decim),
         CombsStep(c, c.order, r.combs, r.down.out),
         TruncatorStep(c.Width(2 * c.order), c.outLen, r.combs[c.order - 1].out))
  }

  // ---- what the registers hold `t` clocks into a gap-free run

  /** A gap-free run of samples `x(0), x(1), ...` after one idle clock.  With `clean`, the run
      starts from reset; otherwise from whatever earlier runs left in the registers. */
  datatype Run = Run(c: Config, w: Positive, rate: Positive, x: Stream, clean: bool) {
    ghost predicate Valid() {
      && Causal(x)
      && forall s: nat :: c.Width(s) == w || s > 2 * c.order
    }

    /** Stage `i` of the accumulators, on unbounded integers. */
    ghost function ExactSum(i: nat, n: int): int {
      RunningSum(x, i, n)
    }

    /** Stage `j` of the combs, on unbounded integers, at output index `k`. */
    ghost function ExactComb(j: nat, k: int): int {
      Differenced(rate * c.delay, x, j, c.order, rate * (k + 1) - 1)
    }

    /** Whether output `k` of comb stage `j` depends on this run alone. */
    ghost predicate Known(j: nat, k: int) {
      clean || k >= j * c.delay
    }

    ghost predicate AccumAt(i: nat, t: nat, s: Sig) {
      && (t >= i ==> s == Sig(true, Wrap(w, ExactSum(i, t - i))))
      && (t + 1 == i ==> s == IDLE)
      && (t < i && clean ==> s == IDLE)
    }

    ghost predicate DownAt(t: nat, d: Downsampler) {
      && (t >= c.order ==>
           var e := t - c.order;
           && d.cnt == rate - 1 - e % rate
           && d.out == if e >= 1 && e % rate == 0 then Sig(true, Wrap(w, ExactSum(c.order, e - 1))) else IDLE)
      && (t < c.order && clean ==> d.out == IDLE)
    }

    /** The output of comb stage `j` (of the downsampler for stage 0). */
    ghost predicate CombOutAt(j: nat, t: nat, s: Sig) {
      && (t >= c.order + j ==>
           var e := t - c.order - j;
           && (s.valid <==> e >= 1 && e % rate == 0)
           && (!s.valid ==> s == IDLE)
           && (s.valid && Known(j, e / rate - 1) ==> s.value == Wrap(w, ExactComb(j, e / rate - 1))))
      && (t < c.order + j && clean ==> s == IDLE)
    }

    /** The newest sample of the run in the delay line of comb stage `j`; -1 for none. */
    ghost function Newest(j: nat, t: nat): int {
      if t < c.order + j then -1 else (t - c.order - j) / rate - 1
    }

    ghost predicate CombAt(j: nat, t: nat, r: Comb)
      requires j >= 1
    {
      && |r.line| == c.delay
      && CombOutAt(j, t, r.out)
      && forall m :: 0 <= m < c.delay && Known(j - 1, Newest(j, t) - m) ==>
           r.line[m] == Wrap(w, ExactComb(j - 1, Newest(j, t) - m))
    }

    ghost predicate AccumsAt(t: nat, accums: seq<Sig>) {
      |accums| == c.order && forall i :: 0 <= i < c.order ==> AccumAt(i + 1, t, accums[i])
    }

    ghost predicate CombsAt(t: nat, combs: seq<Comb>) {
      |combs| == c.order && forall j :: 0 <= j < c.order ==> CombAt(j + 1, t, combs[j])
    }

    ghost predicate At(t: nat, r: Regs) {
      AccumsAt(t, r.accums) && DownAt(t, r.down) && CombsAt(t, r.combs)
    }
  }

  lemma AccumKeepsAt(u: Run, i: nat, t: nat, s: Sig, input: Sig)
    requires u.Valid() && 1 <= i <= u.c.order && u.AccumAt(i, t, s)
    requires if i == 1 then input == Sig(true, u.x(t)) else u.AccumAt(i - 1, t, input)
    ensures u.AccumAt(i, t + 1, AccumStep(u.w, s, input))
  {
    var n := t + 1 - i;
    if n >= 0 {
      WrapCongruent(u.w, u.ExactSum(i, n - 1));
      WrapCongruent(u.w, u.ExactSum(i - 1, n));
      var a, b := s.value, input.value;
      assert u.x(t) == Offset(u.x(t), 0, Pow2(u.w));
      assert 0 == Offset(0, 0, Pow2(u.w));
      assert Congruent(u.w, a, u.ExactSum(i, n - 1)) && Congruent(u.w, b, u.ExactSum(i - 1, n));
      CongruentSum(u.w, a, u.ExactSum(i, n - 1), b, u.ExactSum(i - 1, n));
      WrapOfCongruent(u.w, a + b, u.ExactSum(i, n));
    }
  }

  lemma DownKeepsAt(u: Run, t: nat, d: Downsampler, input: Sig)
    requires u.DownAt(t, d) && u.AccumAt(u.c.order, t, input)
    ensures u.DownAt(t + 1, DownsamplerStep(d, input, u.rate))
  {
    hide Wrap, Run.ExactSum;
    if t >= u.c.order { PeriodAdvances(t - u.c.order + 1, u.rate); }
  }

  lemma DownFeedsCombs(u: Run, t: nat, d: Downsampler)
    requires u.DownAt(t, d)
    ensures u.CombOutAt(0, t, d.out)
  {
    if t >= u.c.order {
      var e := t - u.c.order;
      assert e == u.rate * (e / u.rate) + e % u.rate;
    }
  }

  lemma CombDifference(u: Run, j: nat, k: int)
    requires j >= 1
    ensures u.ExactComb(j, k) == u.ExactComb(j - 1, k) - u.ExactComb(j - 1, k - u.c.delay)
    ensures u.Known(j, k) ==> u.Known(j - 1, k) && u.Known(j - 1, k - u.c.delay)
  {
    var r, d := u.rate, u.c.delay;
    assert r * (k - d + 1) - 1 == (r * (k + 1) - 1) - r * d;
    assert j * d == (j - 1) * d + d;
  }

  lemma CombKeepsAt(u: Run, j: nat, t: nat, r: Comb, input: Sig)
    requires j >= 1 && u.CombAt(j, t, r) && u.CombOutAt(j - 1, t, input)
    ensures u.CombAt(j, t + 1, CombStep(u.w, r, input))
  {
    var d: int := u.c.delay;
    if t + 1 >= u.c.order + j {
      var e := t + 1 - u.c.order - j;
      PeriodAdvances(e, u.rate);
      var k := e / u.rate - 1;
      assert u.Newest(j, t + 1) == k;
      if input.valid {
        assert u.Newest(j, t) == k - 1;
        CombLineShifts(u, j, r, input, k);
        CombDifference(u, j, k);
        WrapSums(u.w, u.ExactComb(j - 1, k), u.ExactComb(j - 1, k - d));
        var m: int := d - 1;
        assert u.Known(j - 1, (k - 1) - m) ==> r.line[m] == Wrap(u.w, u.ExactComb(j - 1, (k - 1) - m));
      } else {
        assert u.Newest(j, t) == k;
      }
    } else if !u.clean {
      assert (j - 1) * d >= 0;
    }
  }

  lemma CombLineShifts(u: Run, j: nat, r: Comb, input: Sig, k: int)
    requires j >= 1 && |r.line| == u.c.delay && input.valid
    requires u.Known(j - 1, k) ==> input.value == Wrap(u.w, u.ExactComb(j - 1, k))
    requires forall m :: 0 <= m < u.c.delay && u.Known(j - 1, k - 1 - m) ==>
      r.line[m] == Wrap(u.w, u.ExactComb(j - 1, k - 1 - m))
    ensures forall m :: 0 <= m < u.c.delay && u.Known(j - 1, k - m) ==>
      CombStep(u.w, r, input).line[m] == Wrap(u.w, u.ExactComb(j - 1, k - m))
  {
    var r' := CombStep(u.w, r, input);
    forall m | 0 <= m < u.c.delay && u.Known(j - 1, k - m)
      ensures r'.line[m] == Wrap(u.w, u.ExactComb(j - 1, k - m))
    {
      if m > 0 {
        assert r'.line[m] == r.line[m - 1];
        assert u.Known(j - 1, k - 1 - (m - 1));
      }
    }
  }

  lemma AccumsKeepAt(u: Run, t: nat, accums: seq<Sig>)
    requires u.Valid() && u.AccumsAt(t, accums)
    ensures u.AccumsAt(t + 1, AccumsStep(u.c, 0, accums, Sig(true, u.x(t))))
  {
    hide Wrap, Fits, Pow2, Config.Width, Run.AccumAt, AccumStep;
    var input := Sig(true, u.x(t));
    var next := AccumsStep(u.c, 0, accums, input);
    forall i | 0 <= i < u.c.order ensures u.AccumAt(i + 1, t + 1, next[i]) {
      assert u.c.Width(0 + (i + 1)) == u.w;
      assert i > 0 ==> u.AccumAt(i - 1 + 1, t, accums[i - 1]);
      AccumKeepsAt(u, i + 1, t, accums[i], if i == 0 then input else accums[i - 1]);
    }
  }

  lemma CombAtParts(u: Run, j: nat, t: nat, r: Comb)
    requires j >= 1 && u.CombAt(j, t, r)
    ensures |r.line| == u.c.delay && u.CombOutAt(j, t, r.out)
  {
  }

  lemma CombsKeepAt(u: Run, t: nat, combs: seq<Comb>, input: Sig)
    requires u.Valid() && CombsShaped(u.c, combs) && u.CombsAt(t, combs) && u.CombOutAt(0, t, input)
    ensures u.CombsAt(t + 1, CombsStep(u.c, u.c.order, combs, input))
  {
    hide Wrap, Fits, Pow2, Config.Width, Run.CombAt, Run.CombOutAt, CombStep;
    var next := CombsStep(u.c, u.c.order, combs, input);
    forall j | 0 <= j < u.c.order ensures u.CombAt(j + 1, t + 1, next[j]) {
      assert u.c.Width(u.c.order + (j + 1)) == u.w;
      if j > 0 {
        assert u.CombAt(j - 1 + 1, t, combs[j - 1]);
        CombAtParts(u, j, t, combs[j - 1]);
      }
      CombKeepsAt(u, j + 1, t, combs[j], if j == 0 then input else combs[j - 1].out);
    }
  }

  /** One clock of a gap-free run keeps every register at its closed form. */
  lemma StepKeepsAt(u: Run, t: nat, r: Regs)
    requires u.Valid() && Shaped(u.c, r) && u.At(t, r)
    ensures u.At(t + 1, Step(u.c, r, Sig(true, u.x(t)), u.rate))
  {
    hide Wrap, Fits, Pow2, Config.Width, Run.AccumAt, Run.CombAt, Run.CombOutAt, Run.DownAt, AccumsStep, CombsStep;
    AccumsKeepAt(u, t, r.accums);
    assert u.AccumAt(u.c.order - 1 + 1, t, r.accums[u.c.order - 1]);
    DownKeepsAt(u, t, r.down, r.accums[u.c.order - 1]);
    DownFeedsCombs(u, t, r.down);
    CombsKeepAt(u, t, r.combs, r.down.out);
  }

  // ---- runs, from any register contents or from reset

  function Reset(c: Config, cnt: nat): Regs {
    Regs(seq(c.order, _ => IDLE), Downsampler(IDLE, cnt),
         seq(c.order, _ => Comb(seq(c.delay, _ => 0), IDLE)), IDLE)
  }

  /** The registers `t` clocks into the run: an idle clock, then a sample at every clock. */
  ghost function After(u: Run, start: Regs, t: nat): (r: Regs)
    requires Shaped(u.c, start)
    ensures Shaped(u.c, r)
  {
    if t == 0 then Step(u.c, start, IDLE, u.rate)
    else Step(u.c, After(u, start, t - 1), Sig(true, u.x(t - 1)), u.rate)
  }

  /** A clean run starts from reset; any other from arbitrary register contents. */
  ghost predicate Starts(u: Run, start: Regs) {
    Shaped(u.c, start) && (u.clean ==> start == Reset(u.c, start.down.cnt))
  }

  /** One idle clock sends a bubble through the pipeline that clears every accumulator just
      before the first sample of the run reaches it, and reloads the downsampler. */
  lemma IdleClockStarts(u: Run, start: Regs)
    requires u.Valid() && Starts(u, start)
    ensures u.At(0, Step(u.c, start, IDLE, u.rate))
  {
    var c, r := u.c, Step(u.c, start, IDLE, u.rate);
    forall i | 0 <= i < c.order ensures u.AccumAt(i + 1, 0, r.accums[i]) {
    }
    forall j | 0 <= j < c.order ensures u.CombAt(j + 1, 0, r.combs[j]) {
      CombStarts(u, start, j);
    }
  }

  lemma BeforeFirstOutput(u: Run, j: nat, k: int)
    requires u.Valid() && k < 0
    ensures Wrap(u.w, u.ExactComb(j, k)) == 0
  {
    MulMonotone(0, -(k + 1), 0, u.rate);
    DifferencedBeforeStart(u.rate * u.c.delay, u.x, j, u.c.order, u.rate * (k + 1) - 1);
    hide Differenced, Run.Valid, Wrap, Pow2;
    assert u.ExactComb(j, k) == 0;
    assert Fits(u.w, 0);
  }

  lemma CleanCombStarts(u: Run, j: nat, r: Comb)
    requires u.Valid() && |r.line| == u.c.delay && r.out == IDLE
    requires forall m :: 0 <= m < u.c.delay ==> r.line[m] == 0
    ensures u.CombAt(j + 1, 0, r)
  {
    hide Wrap, Fits, Pow2, Run.ExactComb, Run.Valid;
    forall m | 0 <= m < u.c.delay ensures r.line[m] == Wrap(u.w, u.ExactComb(j, -1 - m)) {
      BeforeFirstOutput(u, j, -1 - m);
    }
  }

  lemma AnyCombStarts(u: Run, j: nat, r: Comb)
    requires |r.line| == u.c.delay && !u.clean
    ensures u.CombAt(j + 1, 0, r)
  {
    assert j * u.c.delay >= 0;
  }

  lemma CombStarts(u: Run, start: Regs, j: nat)
    requires u.Valid() && Starts(u, start) && j < u.c.order
    ensures u.CombAt(j + 1, 0, Step(u.c, start, IDLE, u.rate).combs[j])
  {
    hide Wrap, Fits, Pow2, Config.Width, Run.CombAt, Run.Valid, AccumsStep, TruncatorStep;
    CombsStepShaped(u.c, u.c.order, start.combs, start.down.out);
    var r := CombsStep(u.c, u.c.order, start.combs, start.down.out)[j];
    if u.clean {
      IdleCombs(u.c, u.c.order, start.combs, j);
      CleanCombStarts(u, j, r);
    } else {
      AnyCombStarts(u, j, r);
    }
  }

  lemma {:induction false} AfterAt(u: Run, start: Regs, t: nat)
    requires u.Valid() && Starts(u, start)
    ensures u.At(t, After(u, start, t))
  {
    hide Run.At, Run.Valid, Step, Reset;
    if t == 0 {
      IdleClockStarts(u, start);
    } else {
      AfterAt(u, start, t - 1);
      StepKeepsAt(u, t - 1, After(u, start, t - 1));
    }
  }

  // ---- the output

  /** What the filter is for: output `k` is the moving sum at input index `rate * (k + 1) - 1`. */
  ghost function Ideal(u: Run, k: int): int {
    MovingSum(u.rate * u.c.delay, u.x, u.c.order, u.rate * (k + 1) - 1)
  }

  ghost predicate Supported(u: Run, inLen: Positive, maxRate: Positive) {
    && u.c == Built(u.c.order, u.c.delay, inLen, u.c.outLen, maxRate)
    && u.w == CicDecimRegisterWidth(inLen, maxRate, u.c.order, u.c.delay)
    && u.rate <= maxRate && Causal(u.x)
    && forall n :: Fits(inLen, u.x(n))
  }

  lemma SupportedIsValid(u: Run, inLen: Positive, maxRate: Positive)
    requires Supported(u, inLen, maxRate)
    ensures u.Valid()
  {
  }

  lemma IdealFits(u: Run, inLen: Positive, maxRate: Positive, k: int)
    requires Supported(u, inLen, maxRate)
    ensures Fits(u.w, Ideal(u, k))
  {
    var b, d, n := Pow2(inLen - 1), u.rate * u.c.delay, u.rate * (k + 1) - 1;
    GainPositive(u.rate, u.c.delay, u.c.order);
    GainPositive(maxRate, u.c.delay, u.c.order);
    forall m ensures InRange(u.x(m), b) { assert Fits(inLen, u.x(m)); }
    MovingSumBound(d, u.x, u.c.order, n, b);
    MulMonotone(u.rate, maxRate, u.c.delay, u.c.delay);
    PowMonotone(d, maxRate * u.c.delay, u.c.order);
    var g, h := Pow(d, u.c.order), Pow(maxRate * u.c.delay, u.c.order);
    var l := CeilLog2(h);
    MulMonotone(g, Pow2(l), b, b);
    Pow2Add(l, inLen - 1);
    assert Pow2(l + (inLen - 1)) >= g * b;
    Pow2Monotone(l + (inLen - 1), u.w - 1);
  }

  /** Between those clocks the last comb is idle. */
  lemma LastCombExact(u: Run, inLen: Positive, maxRate: Positive, t: nat, r: Regs)
    requires Supported(u, inLen, maxRate) && u.At(t, r) && t >= 2 * u.c.order
    ensures var e, s := t - 2 * u.c.order, r.combs[u.c.order - 1].out;
      && (s.valid <==> e >= 1 && e % u.rate == 0)
      && (!s.valid ==> s == IDLE)
      && (s.valid && u.Known(u.c.order, e / u.rate - 1) ==> s.value == Ideal(u, e / u.rate - 1))
  {
    assert u.CombAt(u.c.order - 1 + 1, t, r.combs[u.c.order - 1]);
    CombAtParts(u, u.c.order, t, r.combs[u.c.order - 1]);
    var k := (t - 2 * u.c.order) / u.rate - 1;
    IdealFits(u, inLen, maxRate, k);
    SumsAndDifferencesCancel(u.rate * u.c.delay, u.x, u.c.order, u.rate * (k + 1) - 1);
  }

  /** The last comb, fed by accumulators that overflow without limit, holds exactly the moving
      sum: for every register contents the run may have started from, once the run has filled
      the comb delay lines, and from the first output on when it started from reset. */
  lemma DecimatorIsMovingSum(u: Run, inLen: Positive, maxRate: Positive, start: Regs, k: nat, t: nat)
    requires Supported(u, inLen, maxRate) && Starts(u, start)
    requires t == 2 * u.c.order + u.rate * (k + 1)
    requires u.clean || k >= u.c.order * u.c.delay
    ensures After(u, start, t).combs[u.c.order - 1].out == Sig(true, Ideal(u, k))
  {
    hide After, Step, Run.At, Run.Valid, Supported, Ideal;
    SupportedIsValid(u, inLen, maxRate);
    AfterAt(u, start, t);
    var e := u.rate * (k + 1);
    assert e >= 1 && e % u.rate == 0 && e / u.rate == k + 1 by {
      MulMonotone(1, u.rate, 1, k + 1);
      RemainderUnique(e, k + 1, 0, u.rate);
    }
    LastCombExact(u, inLen, maxRate, t, After(u, start, t));
  }

  /** The truncator's register: the top bits of each output, one clock later. */
  ghost predicate OutAt(u: Run, t: nat, out: Sig)
    requires u.w >= u.c.outLen
  {
    && (t >= 2 * u.c.order + 1 ==>
         var e := t - 2 * u.c.order - 1;
         && (out.valid <==> e >= 1 && e % u.rate == 0)
         && (!out.valid ==> out == IDLE)
         && (out.valid && u.Known(u.c.order, e / u.rate - 1) ==>
              out.value == Ideal(u, e / u.rate - 1) / Pow2(u.w - u.c.outLen)))
    && (t < 2 * u.c.order + 1 && u.clean ==> out == IDLE)
  }

  lemma StepKeepsOut(u: Run, inLen: Positive, maxRate: Positive, t: nat, r: Regs)
    requires Supported(u, inLen, maxRate) && u.w >= u.c.outLen
    requires Shaped(u.c, r) && u.At(t, r) && OutAt(u, t, r.out)
    ensures OutAt(u, t + 1, Step(u.c, r, Sig(true, u.x(t)), u.rate).out)
  {
    hide Wrap, Fits, Pow2, Ideal, Run.At, AccumsStep, CombsStep, CicDecimRegisterWidth;
    var y := r.combs[u.c.order - 1].out;
    assert u.c.Width(2 * u.c.order) == u.w;
    if t >= 2 * u.c.order {
      LastCombExact(u, inLen, maxRate, t, r);
      if y.valid {
        var k := (t - 2 * u.c.order) / u.rate - 1;
        IdealFits(u, inLen, maxRate, k);
        FloorFits(u.c.outLen, u.w - u.c.outLen, Ideal(u, k));
      }
    } else if u.clean {
      LastCombIdle(u, t, r);
    }
  }

  /** The output register follows, from any contents. */
  lemma {:induction false} OutAfter(u: Run, inLen: Positive, maxRate: Positive, start: Regs, t: nat)
    requires Supported(u, inLen, maxRate) && Starts(u, start) && u.w >= u.c.outLen
    ensures OutAt(u, t, After(u, start, t).out)
  {
    hide OutAt, Run.At, Run.Valid, Supported, Step;
    SupportedIsValid(u, inLen, maxRate);
    if t == 0 {
      IdleKeepsOut(u, start);
    } else {
      OutAfter(u, inLen, maxRate, start, t - 1);
      AfterAt(u, start, t - 1);
      StepKeepsOut(u, inLen, maxRate, t - 1, After(u, start, t - 1));
    }
  }

  /** What leaves the filter: the floor of the moving sum, from any register contents once the
      run has filled the comb delay lines, and from the first output on after reset. */
  lemma DecimatorOutput(u: Run, inLen: Positive, maxRate: Positive, start: Regs, k: nat, t: nat)
    requires Supported(u, inLen, maxRate) && Starts(u, start) && u.w >= u.c.outLen
    requires t == 2 * u.c.order + 1 + u.rate * (k + 1)
    requires u.clean || k >= u.c.order * u.c.delay
    ensures After(u, start, t).out == Sig(true, Ideal(u, k) / Pow2(u.w - u.c.outLen))
  {
    hide After, Step, Run.At, Run.Valid, Supported, Ideal, Pow2;
    OutAfter(u, inLen, maxRate, start, t);
    OutputIndex(u.rate, k);
  }

  lemma OutputIndex(rate: Positive, k: nat)
    ensures var e := rate * (k + 1); e >= 1 && e % rate == 0 && e / rate == k + 1
  {
    MulMonotone(1, rate, 1, k + 1);
    RemainderUnique(rate * (k + 1), k + 1, 0, rate);
  }

  lemma LastCombIdle(u: Run, t: nat, r: Regs)
    requires u.clean && u.At(t, r) && t < 2 * u.c.order
    ensures r.combs[u.c.order - 1].out == IDLE
  {
    hide Wrap, Fits, Pow2, Run.CombOutAt;
    assert u.CombAt(u.c.order - 1 + 1, t, r.combs[u.c.order - 1]);
    CombAtParts(u, u.c.order, t, r.combs[u.c.order - 1]);
    CombIdleBefore(u, u.c.order, t, r.combs[u.c.order - 1].out);
  }

  lemma CombIdleBefore(u: Run, j: nat, t: nat, s: Sig)
    requires u.CombOutAt(j, t, s) && u.clean && t < u.c.order + j
    ensures s == IDLE
  {
  }

  // ---- the filter as clocked hardware

  class Filter {
    const c: Config
    var accums: seq<Sig>
    var down: Downsampler
    var combs: seq<Comb>
    var out: Sig

    ghost function State(): Regs
      reads this
    {
      Regs(accums, down, combs, out)
    }

    constructor (c: Config, cnt: nat)
      ensures this.c == c && State() == Reset(c, cnt)
    {
      this.c := c;
      accums := Reset(c, cnt).accums;
      down := Downsampler(IDLE, cnt);
      combs := Reset(c, cnt).combs;
      out := IDLE;
    }

    /** One clock edge: every block computes from the old registers, then all are updated. */
    method Clock(input: Sig, decim: Positive)
      requires Shaped(c, State())
      modifies this
      ensures State() == Step(c, old(State()), input, decim)
    {
      hide Wrap, Load, Pow2, CombsStep, AccumsStep;
      var nextAccums := ClockAccums(c, 0, accums, input);
      var nextCombs := ClockCombs(c, c.order, combs, down.out);
      var nextDown := DownsamplerStep(down, accums[c.order - 1], decim);
      var nextOut, y, w := IDLE, combs[c.order - 1].out, c.Width(2 * c.order);
      if y.valid && w >= c.outLen {
        LoadIsWrap(c.outLen, y.value / Pow2(w - c.outLen));
        nextOut := Sig(true, Load(c.outLen, y.value / Pow2(w - c.outLen)));
      }
      accums, down, combs, out := nextAccums, nextDown, nextCombs, nextOut;
    }
  }

  method ClockOnce(f: Filter, ghost u: Run, ghost inLen: Positive, ghost maxRate: Positive, x: int, decim: Positive, ghost t: nat)
    requires Supported(u, inLen, maxRate) && u.Valid() && u.w >= u.c.outLen && u.rate == decim && f.c == u.c
    requires Shaped(u.c, f.State()) && u.At(t, f.State()) && OutAt(u, t, f.out) && x == u.x(t)
    modifies f
    ensures Shaped(u.c, f.State()) && u.At(t + 1, f.State()) && OutAt(u, t + 1, f.out)
  {
    StepKeepsAt(u, t, f.State());
    StepKeepsOut(u, inLen, maxRate, t, f.State());
    f.Clock(Sig(true, x), decim);
  }

  lemma IdleKeepsOut(u: Run, start: Regs)
    requires Starts(u, start) && u.w >= u.c.outLen
    ensures OutAt(u, 0, Step(u.c, start, IDLE, u.rate).out)
  {
  }

  lemma RecordingSupported(u: Run, inLen: Positive, maxRate: Positive, xs: seq<int>)
    requires u.c == Built(u.c.order, u.c.delay, inLen, u.c.outLen, maxRate)
    requires u.w == CicDecimRegisterWidth(inLen, maxRate, u.c.order, u.c.delay)
    requires u.rate <= maxRate && u.x == Recorded(xs) && forall k :: 0 <= k < |xs| ==> Fits(inLen, xs[k])
    ensures Supported(u, inLen, maxRate)
  {
    hide Built, CicDecimRegisterWidth;
  }

  /** The idle clock before a recording. */
  method StartUp(f: Filter, ghost u: Run, ghost inLen: Positive, ghost maxRate: Positive, decim: Positive)
    requires Supported(u, inLen, maxRate) && u.w >= u.c.outLen && u.rate == decim && f.c == u.c
    requires Starts(u, f.State())
    modifies f
    ensures u.Valid() && Shaped(u.c, f.State()) && u.At(0, f.State()) && OutAt(u, 0, f.out)
  {
    hide Supported, Run.At, Run.Valid, OutAt, Step;
    SupportedIsValid(u, inLen, maxRate);
    IdleClockStarts(u, f.State());
    IdleKeepsOut(u, f.State());
    f.Clock(IDLE, decim);
  }

  /** Clocks a started filter through a recording. */
  method Collect(f: Filter, ghost u: Run, ghost inLen: Positive, ghost maxRate: Positive, decim: Positive, xs: seq<int>)
    returns (ys: seq<int>)
    requires Supported(u, inLen, maxRate) && u.Valid() && u.clean && u.w >= u.c.outLen
    requires u.rate == decim && u.x == Recorded(xs) && f.c == u.c
    requires Shaped(u.c, f.State()) && u.At(0, f.State()) && OutAt(u, 0, f.out)
    modifies f
    ensures var latency := 2 * u.c.order + 1;
      |ys| == if |xs| < latency then 0 else (|xs| - latency) / decim
    ensures forall k :: 0 <= k < |ys| ==> ys[k] == Ideal(u, k) / Pow2(u.w - u.c.outLen)
  {
    hide Wrap, Pow2, Fits, Ideal, Supported, Run.At, Run.Valid;
    ghost var order := u.c.order;
    ys := [];
    for t := 0 to |xs|
      invariant f.c == u.c && Shaped(u.c, f.State()) && u.At(t, f.State()) && OutAt(u, t, f.out)
      invariant |ys| == if t < 2 * order + 1 then 0 else (t - (2 * order + 1)) / decim
      invariant forall k :: 0 <= k < |ys| ==> ys[k] == Ideal(u, k) / Pow2(u.w - u.c.outLen)
    {
      ClockOnce(f, u, inLen, maxRate, xs[t], decim, t);
      if t >= 2 * order { PeriodAdvances(t - 2 * order, decim); }
      if f.out.valid { ys := ys + [f.out.value]; }
    }
  }

  lemma BuiltParts(order: Positive, delay: Positive, inLen: Positive, outLen: Positive, maxRate: Positive)
    ensures var c := Built(order, delay, inLen, outLen, maxRate);
      c.order == order && c.delay == delay && c.outLen == outLen
  {
  }

  lemma ResetStarts(u: Run, cnt: nat)
    ensures Starts(u, Reset(u.c, cnt))
  {
  }

  /** Clocks a filter out of reset through one idle clock and then a gap-free recording, and
      collects its valid outputs. */
  method Decimate(order: Positive, delay: Positive, inLen: Positive, outLen: Positive, maxRate: Positive,
                  decim: Positive, cnt: nat, xs: seq<int>) returns (ys: seq<int>)
    requires decim <= maxRate && forall k :: 0 <= k < |xs| ==> Fits(inLen, xs[k])
    requires CicDecimRegisterWidth(inLen, maxRate, order, delay) >= outLen
    ensures var latency := 2 * order + 1;
      |ys| == if |xs| < latency then 0 else (|xs| - latency) / decim
    ensures var drop := CicDecimRegisterWidth(inLen, maxRate, order, delay) - outLen;
      forall k :: 0 <= k < |ys| ==>
        ys[k] == MovingSum(decim * delay, Recorded(xs), order, decim * (k + 1) - 1) / Pow2(drop)
  {
    hide Run.At, Run.Valid, MovingSum, Pow2, Built, CicDecimRegisterWidth, OutAt, Supported, Recorded;
    var c, w := Built(order, delay, inLen, outLen, maxRate), CicDecimRegisterWidth(inLen, maxRate, order, delay);
    ghost var u := Run(c, w, decim, Recorded(xs), true);
    assert c.order == order && c.delay == delay && c.outLen == outLen by { BuiltParts(order, delay, inLen, outLen, maxRate); }
    RecordingSupported(u, inLen, maxRate, xs);
    var f := new Filter(c, cnt);
    ResetStarts(u, cnt);
    StartUp(f, u, inLen, maxRate, decim);
    ys := Collect(f, u, inLen, maxRate, decim, xs);
  }

  /** Clocks a filter that holds anything through one idle clock and then a gap-free recording:
      what its output register shows clock by clock, exact once the comb delay lines hold
      nothing but this recording. */
  method DecimateAgain(f: Filter, inLen: Positive, maxRate: Positive, decim: Positive, xs: seq<int>) returns (outs: seq<Sig>)
    requires f.c == Built(f.c.order, f.c.delay, inLen, f.c.outLen, maxRate) && Shaped(f.c, f.State())
    requires decim <= maxRate && forall k :: 0 <= k < |xs| ==> Fits(inLen, xs[k])
    requires CicDecimRegisterWidth(inLen, maxRate, f.c.order, f.c.delay) >= f.c.outLen
    modifies f
    ensures |outs| == |xs|
    ensures var drop := CicDecimRegisterWidth(inLen, maxRate, f.c.order, f.c.delay) - f.c.outLen;
      forall k: nat {:trigger Ending(f.c.order, decim, k)} ::
        k >= f.c.order * f.c.delay && Ending(f.c.order, decim, k) < |xs| ==>
          outs[Ending(f.c.order, decim, k)] ==
            Sig(true, MovingSum(decim * f.c.delay, Recorded(xs), f.c.order, decim * (k + 1) - 1) / Pow2(drop))
  {
    hide Run.At, Run.Valid, MovingSum, Pow2, Built, CicDecimRegisterWidth, OutAt, Supported, Recorded, Ending;
    ghost var w := CicDecimRegisterWidth(inLen, maxRate, f.c.order, f.c.delay);
    ghost var u := Run(f.c, w, decim, Recorded(xs), false);
    RecordingSupported(u, inLen, maxRate, xs);
    StartUp(f, u, inLen, maxRate, decim);
    outs := Watch(f, u, inLen, maxRate, decim, xs);
    forall k: nat | k >= f.c.order * f.c.delay && Ending(f.c.order, decim, k) < |xs|
      ensures outs[Ending(f.c.order, decim, k)] == Sig(true, Ideal(u, k) / Pow2(w - f.c.outLen))
    {
      EndingShows(u, k, outs[Ending(f.c.order, decim, k)]);
    }
  }

  /** The clock of the recording with which output `k` reaches the output register. */
  function Ending(order: Positive, rate: Positive, k: nat): nat { 2 * order + rate * (k + 1) }

  lemma EndingShows(u: Run, k: nat, out: Sig)
    requires u.w >= u.c.outLen && OutAt(u, Ending(u.c.order, u.rate, k) + 1, out) && u.Known(u.c.order, k)
    ensures out == Sig(true, Ideal(u, k) / Pow2(u.w - u.c.outLen))
  {
    hide Ideal, Pow2;
    OutputIndex(u.rate, k);
  }

  method Watch(f: Filter, ghost u: Run, ghost inLen: Positive, ghost maxRate: Positive, decim: Positive, xs: seq<int>)
    returns (outs: seq<Sig>)
    requires Supported(u, inLen, maxRate) && u.Valid() && u.w >= u.c.outLen
    requires u.rate == decim && u.x == Recorded(xs) && f.c == u.c
    requires Shaped(u.c, f.State()) && u.At(0, f.State()) && OutAt(u, 0, f.out)
    modifies f
    ensures |outs| == |xs| && forall t :: 0 <= t < |xs| ==> OutAt(u, t + 1, outs[t])
  {
    hide Wrap, Pow2, Fits, Ideal, Supported, Run.At, Run.Valid, OutAt;
    outs := [];
    for t := 0 to |xs|
      invariant f.c == u.c && Shaped(u.c, f.State()) && u.At(t, f.State()) && OutAt(u, t, f.out)
      invariant |outs| == t && forall i :: 0 <= i < t ==> OutAt(u, i + 1, outs[i])
    {
      ClockOnce(f, u, inLen, maxRate, xs[t], decim, t);
      outs := outs + [f.out];
    }
  }
}

/** The transmit-side CIC filter: comb stages, a zero stuffer, accumulator stages and a
    shifting truncator, each a clocked process with a `valid` handshake.  Every register is
    read as a wrapping two's complement register of the width the design computes for it. */
module CicInterpolator {
  import opened Registers
  import opened MovingSums
  import opened Dsp

  datatype Stuffer = Stuffer(out: Sig, cnt: nat)

  datatype Regs = Regs(combs: seq<Comb>, stuffer: Stuffer, accums: seq<Sig>, out: Sig)

  // ---- the register widths

  function CicGain(interp: Positive, order: Positive, delay: Positive, stage: nat): (g: Positive)
    requires 1 <= stage <= 2 * order
  {
    if stage <= order then Pow2(stage)
    else
      LateGain(Pow2(2 * order - stage), interp, delay, stage - order);
      Pow2(2 * order - stage) * Pow(interp * delay, stage - order) / interp
  }

  /** The division by the rate in a late stage's gain is exact. */
  lemma LateGain(p: Positive, interp: Positive, delay: Positive, i: nat)
    requires i >= 1
    ensures interp * delay >= 1
    ensures p * Pow(interp * delay, i) / interp == p * (Pow(interp * delay, i - 1) * delay) >= 1
  {
    var q := Pow(interp * delay, i - 1);
    MulMonotone(1, interp, 1, delay);
    var e := p * (q * delay);
    calc {
      p * Pow(interp * delay, i);
      p * ((interp * delay) * q);
      { assert (interp * delay) * q == (q * delay) * interp; }
      p * ((q * delay) * interp);
      e * interp;
    }
    RemainderUnique(e * interp, e, 0, interp);
    MulMonotone(1, q, 1, delay);
    MulMonotone(1, p, 1, q * delay);
  }

  function CicBitWidth(inLen: Positive, interp: Positive, order: Positive, delay: Positive, stage: nat): (w: Positive)
    requires 1 <= stage <= 2 * order
  {
    if delay == 1 && stage == order then inLen + order - 1
    else inLen + CeilLog2(CicGain(interp, order, delay, stage))
  }

  function CicShift(inLen: Positive, outLen: Positive, interp: Positive, order: Positive, delay: Positive): nat
  {
    var w := CicBitWidth(inLen, interp, order, delay, 2 * order);
    if w > outLen then w - outLen else 0
  }

  /** The filter as the design builds it for all rates up to `maxRate`. */
  function Built(order: Positive, delay: Positive, inLen: Positive, outLen: Positive, maxRate: Positive): Config
  {
    Config(order, delay,
      seq(2 * order + 1, s requires 0 <= s <= 2 * order =>
        if s == 0 then inLen else CicBitWidth(inLen, maxRate, order, delay, s)),
      outLen)
  }

  // ---- one clock edge of each block

  ghost function StufferStep(s: Stuffer, input: Sig, interp: Positive): Stuffer
  {
    if input.valid then Stuffer(Sig(true, input.value), interp - 1)
    else if s.cnt > 0 then Stuffer(Sig(true, 0), s.cnt - 1)
    else Stuffer(IDLE, s.cnt)
  }

  /** The shifts the truncator has a branch for; on any other it keeps its old output. */
  predicate HandledShift(shift: nat) {
    shift <= 20 && shift != 2
  }

  ghost function TruncatorStep(outLen: Positive, out: Sig, input: Sig, shift: nat): Sig
  {
    if !input.valid then IDLE
    else if HandledShift(shift) then Sig(true, Wrap(outLen, input.value / Pow2(shift)))
    else Sig(true, out.value)
  }

  ghost predicate Shaped(c: Config, r: Regs) {
    CombsShaped(c, r.combs) && |r.accums| == c.order
  }

  /** All blocks clocked together: each reads the registers as they were before the edge. */
  ghost function Step(c: Config, r: Regs, input: Sig, interp: Positive, shift: nat): (r': Regs)
    requires Shaped(c, r)
    ensures Shaped(c, r')
  {
    CombsStepShaped(c, 0, r.combs, input);
    Regs(CombsStep(c, 0, r.combs, input),
         StufferStep(r.stuffer, r.combs[c.order - 1].out, interp),
         AccumsStep(c, c.order, r.accums, r.stuffer.out),
         TruncatorStep(c.outLen, r.out, r.accums[c.order - 1], shift))
  }

  // ---- what every register holds after `t` clocks of a run at rate `rate`

  /** A run: sample `k` of `x` is presented at clock `k * rate`, and nothing in between. */
  datatype Run = Run(c: Config, rate: Positive, x: Stream) {
    /** What comb stage `j` computes without wrap-around (the input itself for stage 0). */
    ghost function ExactComb(j: nat, k: int): int {
      Differenced(c.delay, x, j, 0, k)
    }

    /** What accumulator stage `i` computes without wrap-around (stage 0: the stuffer). */
    ghost function Exact(i: nat, n: int): int {
      Differenced(rate * c.delay, Stuffed(rate, x), c.order, i, n)
    }

    ghost predicate CombFits(j: nat, k: int) {
      Fits(c.Width(j), ExactComb(j, k))
    }

    /** What enters accumulator `i` either fits its register or has wrapped only at the
        accumulator's own modulus. */
    ghost predicate Carried(i: nat, n: int)
      requires i >= 1
    {
      c.Width(c.order + i - 1) == c.Width(c.order + i) || Fits(c.Width(c.order + i - 1), Exact(i - 1, n))
    }

    ghost predicate Valid() {
      && Causal(x)
      && (forall j, k :: 0 <= j < c.order ==> CombFits(j, k))
      && (forall i, n :: 1 <= i <= c.order ==> Carried(i, n))
    }

    ghost function CombSig(j: nat, t: nat): Sig {
      if t >= j && (t - j) % rate == 0
      then Sig(true, Wrap(c.Width(j), ExactComb(j, (t - j) / rate)))
      else IDLE
    }

    /** The index of the newest sample in the delay line of comb stage `j`; -1 for none. */
    ghost function Newest(j: nat, t: nat): int {
      if t < j then -1 else (t - j) / rate
    }

    ghost function AccumSig(i: nat, t: nat): Sig {
      var start := c.order + 1 + i;
      if t < start then IDLE else Sig(true, Wrap(c.Width(c.order + i), Exact(i, t - start)))
    }

    ghost predicate CombAt(j: nat, t: nat, r: Comb)
      requires j >= 1
    {
      && |r.line| == c.delay
      && r.out == CombSig(j, t)
      && forall m :: 0 <= m < c.delay ==> r.line[m] == ExactComb(j - 1, Newest(j, t) - m)
    }

    ghost predicate StufferAt(t: nat, r: Stuffer) {
      && r.out == AccumSig(0, t)
      && r.cnt == if t < c.order + 1 then 0 else rate - 1 - (t - c.order - 1) % rate
    }

    ghost predicate CombsAt(t: nat, combs: seq<Comb>) {
      |combs| == c.order && forall j :: 0 <= j < c.order ==> CombAt(j + 1, t, combs[j])
    }

    ghost predicate AccumsAt(t: nat, accums: seq<Sig>) {
      |accums| == c.order && forall i :: 0 <= i < c.order ==> accums[i] == AccumSig(i + 1, t)
    }

    ghost predicate At(t: nat, r: Regs) {
      CombsAt(t, r.combs) && StufferAt(t, r.stuffer) && AccumsAt(t, r.accums)
    }
  }

  // ---- each block keeps its part of `At`

  lemma CombKeepsAt(u: Run, j: nat, t: nat, r: Comb)
    requires u.Valid() && 1 <= j <= u.c.order && u.CombAt(j, t, r)
    ensures u.CombAt(j, t + 1, CombStep(u.c.Width(j), r, u.CombSig(j - 1, t)))
  {
    var d, input := u.c.delay, u.CombSig(j - 1, t);
    var r' := CombStep(u.c.Width(j), r, input);
    PeriodAdvances(t + 1 - j, u.rate);
    if input.valid {
      var k := (t + 1 - j) / u.rate;
      assert u.Newest(j, t + 1) == k && u.Newest(j, t) == k - 1;
      assert u.CombFits(j - 1, k);
      assert input.value == u.ExactComb(j - 1, k);
      assert r.line[d - 1] == u.ExactComb(j - 1, k - d);
      forall m | 0 <= m < d ensures r'.line[m] == u.ExactComb(j - 1, k - m) {
        if m > 0 { assert r'.line[m] == r.line[m - 1]; }
      }
    } else {
      assert u.Newest(j, t + 1) == u.Newest(j, t);
    }
  }

  lemma StufferKeepsAt(u: Run, t: nat, r: Stuffer)
    requires u.Valid() && u.StufferAt(t, r)
    ensures u.StufferAt(t + 1, StufferStep(r, u.CombSig(u.c.order, t), u.rate))
  {
    var n := t - u.c.order;
    if n >= 0 {
      StuffingScalesDistance(u.rate, u.c.delay, u.x, u.c.order, n);
      PeriodAdvances(n, u.rate);
    }
  }

  /** The value entering an accumulator may have wrapped, but only at that accumulator's own
      modulus, so the sum loses nothing. */
  lemma AccumInputCongruent(w: Positive, w': Positive, a: int, e: int)
    requires w == w' || Fits(w', e)
    ensures Wrap(w, Wrap(w, a) + Wrap(w', e)) == Wrap(w, a + e)
  {
    if w != w' { assert Wrap(w', e) == e; }
    WrapCongruent(w, a);
    WrapCongruent(w, e);
    assert e == Offset(e, 0, Pow2(w));
    CongruentSum(w, Wrap(w, a), a, Wrap(w', e), e);
    WrapOfCongruent(w, Wrap(w, a) + Wrap(w', e), a + e);
  }

  lemma AccumKeepsAt(u: Run, i: nat, t: nat)
    requires Causal(u.x) && 1 <= i <= u.c.order && u.Carried(i, t - (u.c.order + i))
    ensures AccumStep(u.c.Width(u.c.order + i), u.AccumSig(i, t), u.AccumSig(i - 1, t)) == u.AccumSig(i, t + 1)
  {
    var n := t - (u.c.order + i);
    if n >= 0 {
      var d, s := u.rate * u.c.delay, Stuffed(u.rate, u.x);
      SumStep(d, s, u.c.order, i, n);
      if n == 0 { DifferencedBeforeStart(d, s, u.c.order, i, -1); }
      AccumInputCongruent(u.c.Width(u.c.order + i), u.c.Width(u.c.order + i - 1), u.Exact(i, n - 1), u.Exact(i - 1, n));
    }
  }

  lemma AccumsKeepAt(u: Run, t: nat, accums: seq<Sig>)
    requires u.Valid() && u.AccumsAt(t, accums)
    ensures u.AccumsAt(t + 1, AccumsStep(u.c, u.c.order, accums, u.AccumSig(0, t)))
  {
    hide Wrap, Fits, Differenced;
    var next := AccumsStep(u.c, u.c.order, accums, u.AccumSig(0, t));
    forall i | 0 <= i < u.c.order ensures next[i] == u.AccumSig(i + 1, t + 1) {
      assert u.Carried(i + 1, t - (u.c.order + (i + 1)));
      AccumKeepsAt(u, i + 1, t);
    }
  }

  lemma CombsKeepAt(u: Run, t: nat, combs: seq<Comb>)
    requires u.Valid() && u.CombsAt(t, combs)
    ensures u.CombsAt(t + 1, CombsStep(u.c, 0, combs, u.CombSig(0, t)))
  {
    var next := CombsStep(u.c, 0, combs, u.CombSig(0, t));
    forall j | 0 <= j < u.c.order ensures u.CombAt(j + 1, t + 1, next[j]) {
      assert u.CombAt(j + 1, t, combs[j]);
      if j > 0 { assert u.CombAt(j, t, combs[j - 1]); }
      assert next[j] == CombStep(u.c.Width(j + 1), combs[j], u.CombSig(j, t));
      CombKeepsAt(u, j + 1, t, combs[j]);
    }
  }

  /** One clock of the whole filter keeps every register at its closed form. */
  lemma StepKeepsAt(u: Run, t: nat, r: Regs, shift: nat)
    requires u.Valid() && u.At(t, r)
    ensures u.At(t + 1, Step(u.c, r, u.CombSig(0, t), u.rate, shift))
  {
    CombsKeepAt(u, t, r.combs);
    AccumsKeepAt(u, t, r.accums);
    assert u.CombAt(u.c.order, t, r.combs[u.c.order - 1]);
    StufferKeepsAt(u, t, r.stuffer);
  }

  // ---- the widths the design chooses are sufficient

  lemma WidthHolds(inLen: Positive, g: Positive, v: int)
    requires InRange(v, g * Pow2(inLen - 1))
    ensures Fits(inLen + CeilLog2(g), v)
  {
    var l := CeilLog2(g);
    Pow2Add(l, inLen - 1);
    MulMonotone(g, Pow2(l), Pow2(inLen - 1), Pow2(inLen - 1));
  }

  /** The gain of a stage grows with the rate, so widths chosen for the largest rate serve
      every smaller one. */
  lemma GainGrowsWithRate(small: Positive, large: Positive, order: Positive, delay: Positive, i: nat)
    requires small <= large && 1 <= i <= order
    ensures CicGain(small, order, delay, order + i) <= CicGain(large, order, delay, order + i)
  {
    var p := Pow2(order - i);
    LateGain(p, small, delay, i);
    LateGain(p, large, delay, i);
    MulMonotone(small, large, delay, delay);
    PowMonotone(small * delay, large * delay, i - 1);
    var a, b := Pow(small * delay, i - 1), Pow(large * delay, i - 1);
    MulMonotone(a, b, delay, delay);
    MulMonotone(p, p, a * delay, b * delay);
  }

  /** A run of samples that fit the input, at any rate up to the one the filter was built for. */
  ghost predicate Supported(u: Run, inLen: Positive, maxRate: Positive) {
    && u.c == Built(u.c.order, u.c.delay, inLen, u.c.outLen, maxRate)
    && u.rate <= maxRate && Causal(u.x)
    && forall k :: Fits(inLen, u.x(k))
  }

  lemma CombBound(u: Run, inLen: Positive, j: nat, k: int)
    requires forall m :: Fits(inLen, u.x(m))
    ensures InRange(u.ExactComb(j, k), Pow2(j) * Pow2(inLen - 1))
  {
    forall m ensures InRange(Differenced(u.c.delay, u.x, 0, 0, m), Pow2(inLen - 1)) {
      assert Fits(inLen, u.x(m));
    }
    DifferencedBound(u.c.delay, u.x, j, 0, k, Pow2(inLen - 1));
  }

  /** The values of accumulator stage `i` are bounded by the stage's gain at the run's rate. */
  lemma AccumBound(u: Run, inLen: Positive, i: nat, n: int)
    requires Causal(u.x) && 1 <= i <= u.c.order && forall k :: Fits(inLen, u.x(k))
    ensures InRange(u.Exact(i, n), CicGain(u.rate, u.c.order, u.c.delay, u.c.order + i) * Pow2(inLen - 1))
  {
    var r, m, b := u.rate, u.c.delay, Pow2(inLen - 1);
    var d, s, g := r * m, Stuffed(r, u.x), Pow(r * m, i - 1) * (m * b);
    forall l ensures InRange(u.x(l), b) { assert Fits(inLen, u.x(l)); }
    forall l ensures InRange(Differenced(d, s, i, i, l), g) {
      StuffedMovingSumBound(r, m, u.x, i, l, b);
      SumsAndDifferencesCancel(d, s, i, l);
    }
    DifferencedBound(d, s, u.c.order, i, n, g);
    var p, q := Pow2(u.c.order - i), Pow(d, i - 1);
    LateGain(p, r, m, i);
    hide Pow, Pow2, Differenced, Stuffed, Fits;
    Regroup(p, q, m, b);
  }

  lemma Regroup(p: nat, q: nat, m: nat, b: nat)
    ensures p * (q * m) * b == p * (q * (m * b))
  {
    assert (q * m) * b == q * (m * b);
    assert p * (q * m) * b == p * ((q * m) * b);
  }

  lemma AccumFits(u: Run, inLen: Positive, maxRate: Positive, i: nat, n: int)
    requires Supported(u, inLen, maxRate) && 1 <= i <= u.c.order
    ensures Fits(u.c.Width(u.c.order + i), u.Exact(i, n))
  {
    AccumBound(u, inLen, i, n);
    GainGrowsWithRate(u.rate, maxRate, u.c.order, u.c.delay, i);
    var a := CicGain(u.rate, u.c.order, u.c.delay, u.c.order + i);
    var g := CicGain(maxRate, u.c.order, u.c.delay, u.c.order + i);
    MulMonotone(a, g, Pow2(inLen - 1), Pow2(inLen - 1));
    WidthHolds(inLen, g, u.Exact(i, n));
  }

  /** With a unit delay the last comb register is one bit too narrow for its values, but it is
      exactly as wide as the first accumulator; with a longer delay it is wide enough. */
  lemma LastCombCarried(u: Run, inLen: Positive, maxRate: Positive, n: int)
    requires Supported(u, inLen, maxRate)
    ensures u.Carried(1, n)
  {
    var c := u.c;
    if c.delay == 1 {
      LateGain(Pow2(c.order - 1), maxRate, 1, 1);
      assert CicGain(maxRate, c.order, c.delay, c.order + 1) == Pow2(c.order - 1);
      CeilLog2Unique(Pow2(c.order - 1), c.order - 1);
      assert c.Width(c.order) == inLen + c.order - 1 == c.Width(c.order + 1);
    } else {
      StuffingScalesDistance(u.rate, c.delay, u.x, c.order, n);
      CombBound(u, inLen, c.order, n / u.rate);
      MulMonotone(1, Pow2(c.order), 1, Pow2(inLen - 1));
      WidthHolds(inLen, Pow2(c.order), u.Exact(0, n));
    }
  }

  lemma SupportedIsValid(u: Run, inLen: Positive, maxRate: Positive)
    requires Supported(u, inLen, maxRate)
    ensures u.Valid()
  {
    forall j, k | 0 <= j < u.c.order ensures u.CombFits(j, k) {
      if j == 0 {
        assert Fits(inLen, u.x(k));
      } else {
        CombBound(u, inLen, j, k);
        WidthHolds(inLen, Pow2(j), u.ExactComb(j, k));
      }
    }
    forall i, n | 1 <= i <= u.c.order ensures u.Carried(i, n) {
      if i == 1 { LastCombCarried(u, inLen, maxRate, n); } else { AccumFits(u, inLen, maxRate, i - 1, n); }
    }
  }

  // ---- the output

  function Reset(c: Config): Regs {
    Regs(seq(c.order, _ => Comb(seq(c.delay, _ => 0), IDLE)), Stuffer(IDLE, 0), seq(c.order, _ => IDLE), IDLE)
  }

  lemma ResetAt(u: Run)
    requires u.Valid()
    ensures u.At(0, Reset(u.c))
  {
    var r := Reset(u.c);
    forall j | 0 <= j < u.c.order ensures u.CombAt(j + 1, 0, r.combs[j]) {
      forall m | 0 <= m < u.c.delay ensures r.combs[j].line[m] == u.ExactComb(j, -1 - m) {
        DifferencedBeforeStart(u.c.delay, u.x, j, 0, -1 - m);
      }
    }
  }

  /** The last accumulator, wrapping registers and all, holds the exact `order`-fold moving
      sum of the zero-stuffed input over `rate * delay` samples, from clock `2 * order + 1` on. */
  lemma LastAccumulatorExact(u: Run, inLen: Positive, maxRate: Positive, t: nat, r: Regs)
    requires Supported(u, inLen, maxRate) && u.At(t, r)
    ensures r.accums[u.c.order - 1] ==
      if t < 2 * u.c.order + 1 then IDLE
      else Sig(true, MovingSum(u.rate * u.c.delay, Stuffed(u.rate, u.x), u.c.order, t - 2 * u.c.order - 1))
  {
    if t >= 2 * u.c.order + 1 {
      var n := t - 2 * u.c.order - 1;
      AccumFits(u, inLen, maxRate, u.c.order, n);
      SumsAndDifferencesCancel(u.rate * u.c.delay, Stuffed(u.rate, u.x), u.c.order, n);
    }
  }

  /** The registers after `t` clocks of the run, from reset. */
  ghost function After(u: Run, shift: nat, t: nat): (r: Regs)
    ensures Shaped(u.c, r)
  {
    if t == 0 then Reset(u.c) else Step(u.c, After(u, shift, t - 1), u.CombSig(0, t - 1), u.rate, shift)
  }

  lemma {:induction false} AfterAt(u: Run, shift: nat, t: nat)
    requires u.Valid()
    ensures u.At(t, After(u, shift, t))
  {
    hide Run.At, Run.Valid, Run.CombSig, Step, Reset;
    if t == 0 {
      ResetAt(u);
    } else {
      AfterAt(u, shift, t - 1);
      StepKeepsAt(u, t - 1, After(u, shift, t - 1), shift);
    }
  }

  /** The interpolator computes the moving sum: for every order, delay, rate up to the one it
      was built for, input that fits, and clock. */
  lemma InterpolatorIsMovingSum(u: Run, inLen: Positive, maxRate: Positive, shift: nat, t: nat)
    requires Supported(u, inLen, maxRate)
    ensures After(u, shift, t).accums[u.c.order - 1] ==
      if t < 2 * u.c.order + 1 then IDLE
      else Sig(true, MovingSum(u.rate * u.c.delay, Stuffed(u.rate, u.x), u.c.order, t - 2 * u.c.order - 1))
  {
    SupportedIsValid(u, inLen, maxRate);
    AfterAt(u, shift, t);
    LastAccumulatorExact(u, inLen, maxRate, t, After(u, shift, t));
  }

  /** What the filter is for: sample `n` of the ideal output, scaled down by `shift` bits. */
  ghost function Ideal(u: Run, shift: nat, n: int): int {
    MovingSum(u.rate * u.c.delay, Stuffed(u.rate, u.x), u.c.order, n) / Pow2(shift)
  }

  lemma IdealFits(u: Run, inLen: Positive, maxRate: Positive, shift: nat, n: int)
    requires Supported(u, inLen, maxRate)
    requires shift >= CicShift(inLen, u.c.outLen, u.rate, u.c.order, u.c.delay)
    ensures Fits(u.c.outLen, Ideal(u, shift, n))
  {
    var order := u.c.order;
    var y := MovingSum(u.rate * u.c.delay, Stuffed(u.rate, u.x), order, n);
    SumsAndDifferencesCancel(u.rate * u.c.delay, Stuffed(u.rate, u.x), order, n);
    AccumBound(u, inLen, order, n);
    var g := CicGain(u.rate, order, u.c.delay, 2 * order);
    WidthHolds(inLen, g, y);
    Pow2Monotone(inLen + CeilLog2(g) - 1, u.c.outLen + shift - 1);
    FloorFits(u.c.outLen, shift, y);
  }

  /** The truncator's register after `t` clocks, for a shift it has a branch for and one
      (2, or anything above 20) it has not: then it never leaves its reset value. */
  ghost function OutSig(u: Run, shift: nat, t: nat): Sig {
    var start := 2 * u.c.order + 2;
    if t < start then IDLE
    else Sig(true, if HandledShift(shift) then Ideal(u, shift, t - start) else 0)
  }

  lemma StepKeepsOut(u: Run, inLen: Positive, maxRate: Positive, shift: nat, t: nat, r: Regs)
    requires Supported(u, inLen, maxRate) && u.At(t, r) && r.out == OutSig(u, shift, t)
    requires shift >= CicShift(inLen, u.c.outLen, u.rate, u.c.order, u.c.delay)
    ensures Step(u.c, r, u.CombSig(0, t), u.rate, shift).out == OutSig(u, shift, t + 1)
  {
    hide Wrap, Pow2, Fits, MovingSum, Run.At, Supported, CicShift;
    LastAccumulatorExact(u, inLen, maxRate, t, r);
    if t >= 2 * u.c.order + 1 { IdealFits(u, inLen, maxRate, shift, t - 2 * u.c.order - 1); }
  }

  /** The host's copy of the shift formula, for the filter as fabricated (order 4, delay 1,
      9 bits in, 10 bits out). */
  function HostCicShift(interp: Positive): (shift: nat)
    ensures shift == CicShift(9, 10, interp, 4, 1)
  {
    LateGain(1, interp, 1, 4);
    var gain: Positive := Pow(interp * 1, 4) / interp;
    var bitWidth := 9 + CeilLog2(gain);
    if bitWidth < 10 then 0 else bitWidth - 10
  }

  lemma CubeBits(n: Positive)
    ensures var l := CeilLog2(Pow(n, 3));
      (l <= 21 <==> n <= 128) && (l == 3 <==> n == 2) && (l == 0 <==> n == 1)
  {
    var g := Pow(n, 3);
    var l := CeilLog2(g);
    PowValues();
    hide CeilLog2, Pow2, Pow;
    if n == 1 {
      CeilLog2Unique(g, 0);
    } else if n == 2 {
      CeilLog2Unique(g, 3);
    } else {
      PowMonotone(3, n, 3);
      if l <= 3 { Pow2Monotone(l, 3); }
      if n <= 128 {
        PowMonotone(n, 128, 3);
        if l > 21 { Pow2Monotone(21, l - 1); }
      } else {
        PowMonotone(129, n, 3);
        if l <= 21 { Pow2Monotone(l, 21); }
      }
    }
  }

  lemma PowValues()
    ensures Pow2(0) == 1 && Pow2(2) == 4 && Pow2(3) == 8 && Pow2(21) == 2097152
    ensures Pow(1, 3) == 1 && Pow(2, 3) == 8 && Pow(3, 3) == 27 && Pow(128, 3) == 2097152 && Pow(129, 3) == 2146689
  {
    assert Pow2(10) == 1024;
    Pow2Add(10, 10);
  }

  /** Which rates the host can ask for and get a signal out: all up to 128 except 2, whose
      shift of 2 the truncator has no branch for. */
  lemma HostShiftHandledIff(interp: Positive)
    ensures HandledShift(HostCicShift(interp)) <==> interp <= 128 && interp != 2
  {
    LateGain(1, interp, 1, 4);
    assert Pow(interp * 1, 4) / interp == Pow(interp, 3);
    CubeBits(interp);
    hide CeilLog2, Pow;
  }

  // ---- the filter as clocked hardware

  class Filter {
    const c: Config
    var combs: seq<Comb>
    var stuffer: Stuffer
    var accums: seq<Sig>
    var out: Sig

    ghost function State(): Regs
      reads this
    {
      Regs(combs, stuffer, accums, out)
    }

    constructor (c: Config)
      ensures this.c == c && State() == Reset(c)
    {
      this.c := c;
      combs := Reset(c).combs;
      stuffer := Stuffer(IDLE, 0);
      accums := Reset(c).accums;
      out := IDLE;
    }

    /** One clock edge: every block computes from the old registers, then all are updated. */
    method Clock(input: Sig, interp: Positive, shift: nat)
      requires Shaped(c, State())
      modifies this
      ensures State() == Step(c, old(State()), input, interp, shift)
    {
      hide Wrap, Load, Pow2, CombsStep, AccumsStep;
      var nextCombs := ClockCombs(c, 0, combs, input);
      var nextAccums := ClockAccums(c, c.order, accums, stuffer.out);
      var s, y := combs[c.order - 1].out, accums[c.order - 1];
      var nextStuffer := stuffer;
      if s.valid {
        nextStuffer := Stuffer(Sig(true, s.value), interp - 1);
      } else if stuffer.cnt > 0 {
        nextStuffer := Stuffer(Sig(true, 0), stuffer.cnt - 1);
      } else {
        nextStuffer := Stuffer(IDLE, stuffer.cnt);
      }
      var nextOut := out;
      if y.valid {
        if HandledShift(shift) {
          LoadIsWrap(c.outLen, y.value / Pow2(shift));
          nextOut := Sig(true, Load(c.outLen, y.value / Pow2(shift)));
        } else {
          nextOut := Sig(true, out.value);
        }
      } else {
        nextOut := IDLE;
      }
      combs, stuffer, accums, out := nextCombs, nextStuffer, nextAccums, nextOut;
    }
  }

  /** The sample presented at clock `t`. */
  method Presented(ghost u: Run, xs: seq<int>, rate: Positive, t: nat) returns (input: Sig)
    requires u.rate == rate && u.x == Recorded(xs) && u.Valid() && t < |xs| * rate
    ensures input == u.CombSig(0, t)
  {
    if t % rate == 0 {
      var k := t / rate;
      assert t == k * rate;
      if k >= |xs| { MulMonotone(|xs|, k, rate, rate); }
      assert u.CombFits(0, k);
      input := Sig(true, xs[k]);
    } else {
      input := IDLE;
    }
  }

  method ClockOnce(f: Filter, ghost u: Run, ghost inLen: Positive, ghost maxRate: Positive,
                   input: Sig, rate: Positive, shift: nat, ghost t: nat)
    requires Supported(u, inLen, maxRate) && u.Valid() && u.rate == rate && f.c == u.c
    requires shift >= CicShift(inLen, u.c.outLen, u.rate, u.c.order, u.c.delay)
    requires u.At(t, f.State()) && f.out == OutSig(u, shift, t) && input == u.CombSig(0, t)
    modifies f
    ensures u.At(t + 1, f.State()) && f.out == OutSig(u, shift, t + 1)
  {
    StepKeepsAt(u, t, f.State(), shift);
    StepKeepsOut(u, inLen, maxRate, shift, t, f.State());
    f.Clock(input, rate, shift);
  }

  /** Clocks a freshly built filter through a recording, one sample every `rate` clocks, and
      collects its valid outputs. */
  method Interpolate(order: Positive, delay: Positive, inLen: Positive, outLen: Positive, maxRate: Positive,
                     rate: Positive, shift: nat, xs: seq<int>) returns (ys: seq<int>)
    requires rate <= maxRate && forall k :: 0 <= k < |xs| ==> Fits(inLen, xs[k])
    requires shift >= CicShift(inLen, outLen, rate, order, delay)
    ensures var latency := 2 * order + 1;
      |ys| == if |xs| * rate <= latency then 0 else |xs| * rate - latency
    ensures HandledShift(shift) ==> forall n :: 0 <= n < |ys| ==>
      ys[n] == MovingSum(rate * delay, Stuffed(rate, Recorded(xs)), order, n) / Pow2(shift)
    ensures !HandledShift(shift) ==> forall n :: 0 <= n < |ys| ==> ys[n] == 0
  {
    var c := Built(order, delay, inLen, outLen, maxRate);
    ghost var u := Run(c, rate, Recorded(xs));
    assert Supported(u, inLen, maxRate);
    SupportedIsValid(u, inLen, maxRate);
    ResetAt(u);
    hide Wrap, Pow2, Fits, MovingSum, Supported, CicShift, Run.At, Run.Valid, Built;
    var f := new Filter(c);
    ys := [];
    var clocks := |xs| * rate;
    for t := 0 to clocks
      invariant f.c == c && u.At(t, f.State()) && f.out == OutSig(u, shift, t)
      invariant |ys| == if t <= 2 * order + 1 then 0 else t - (2 * order + 1)
      invariant forall n :: 0 <= n < |ys| ==> ys[n] == if HandledShift(shift) then Ideal(u, shift, n) else 0
    {
      var input := Presented(u, xs, rate, t);
      ClockOnce(f, u, inLen, maxRate, input, rate, shift, t);
      if f.out.valid { ys := ys + [f.out.value]; }
    }
  }
}

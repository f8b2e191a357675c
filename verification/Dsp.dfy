/** The clocked building blocks of both CIC filters.  Each block is a step from the registers
    before a clock edge to the registers after it.  Registers are read as wrapping two's
    complement registers of a given width, which is their synthesised meaning.

    The filters have two identical channels, i and q; the model follows one of them. */
module Dsp {
  import opened Registers

  /** A wire with its handshake: the value is meaningful when `valid` is set. */
  datatype Sig = Sig(valid: bool, value: int)

  const IDLE := Sig(false, 0)

  /** A comb stage: its delay line, newest sample first, and its output register. */
  datatype Comb = Comb(line: seq<int>, out: Sig)

  /** What is fixed when the filter is built.  `widths[s]` is the width of the register
      behind stage `s`; stage 0 is the input. */
  datatype Config = Config(order: Positive, delay: Positive, widths: seq<Positive>, outLen: Positive) {
    function Width(s: nat): Positive {
      if s < |widths| then widths[s] else 1
    }
  }

  ghost function CombStep(w: Positive, c: Comb, input: Sig): (c': Comb)
    requires |c.line| >= 1
    ensures |c'.line| == |c.line|
  {
    var m := |c.line|;
    if input.valid
    then Comb([input.value] + c.line[..m - 1], Sig(true, Wrap(w, input.value - c.line[m - 1])))
    else Comb(c.line, IDLE)
  }

  ghost function AccumStep(w: Positive, out: Sig, input: Sig): Sig
  {
    if input.valid then Sig(true, Wrap(w, out.value + input.value)) else IDLE
  }

  ghost predicate CombsShaped(c: Config, combs: seq<Comb>) {
    |combs| == c.order && forall j :: 0 <= j < c.order ==> |combs[j].line| == c.delay
  }

  /** A chain of combs clocked together: each reads its predecessor's old output.  The
      registers of the chain are those of the stages after `base`. */
  ghost function CombsStep(c: Config, base: nat, combs: seq<Comb>, input: Sig): (next: seq<Comb>)
    requires CombsShaped(c, combs)
    ensures |next| == c.order
  {
    seq(c.order, j requires 0 <= j < c.order =>
      CombStep(c.Width(base + (j + 1)), combs[j], if j == 0 then input else combs[j - 1].out))
  }

  lemma CombsStepShaped(c: Config, base: nat, combs: seq<Comb>, input: Sig)
    requires CombsShaped(c, combs)
    ensures CombsShaped(c, CombsStep(c, base, combs, input))
  {
    hide Wrap, Fits, Pow2, Config.Width;
  }

  lemma IdleCombs(c: Config, base: nat, combs: seq<Comb>, j: nat)
    requires CombsShaped(c, combs) && j < c.order && forall l :: 0 <= l < c.order ==> combs[l].out == IDLE
    ensures CombsStep(c, base, combs, IDLE)[j] == combs[j]
  {
    hide Wrap, Fits, Pow2, Config.Width;
  }

  /** A chain of accumulators clocked together. */
  ghost function AccumsStep(c: Config, base: nat, accums: seq<Sig>, input: Sig): (next: seq<Sig>)
    requires |accums| == c.order
    ensures |next| == c.order
  {
    seq(c.order, i requires 0 <= i < c.order =>
      AccumStep(c.Width(base + (i + 1)), accums[i], if i == 0 then input else accums[i - 1]))
  }

  /** One shift of a delay line: every element takes its predecessor's old value. */
  method ShiftLine(elements: seq<int>, x: int) returns (next: seq<int>)
    requires |elements| >= 1
    ensures next == [x] + elements[..|elements| - 1]
  {
    next := elements[0 := x];
    for i := 1 to |elements|
      invariant |next| == |elements|
      invariant next[..i] == [x] + elements[..i - 1]
    {
      next := next[i := elements[i - 1]];
    }
  }

  method ClockCombs(c: Config, base: nat, combs: seq<Comb>, input: Sig) returns (next: seq<Comb>)
    requires CombsShaped(c, combs)
    ensures next == CombsStep(c, base, combs, input)
  {
    hide Wrap, Load, Pow2, Fits, Config.Width;
    next := [];
    for n := 0 to c.order
      invariant |next| == n
      invariant forall j :: 0 <= j < n ==> next[j] == CombsStep(c, base, combs, input)[j]
    {
      var i, r, w := if n == 0 then input else combs[n - 1].out, combs[n], c.Width(base + (n + 1));
      if i.valid {
        var line := ShiftLine(r.line, i.value);
        var d := i.value - r.line[c.delay - 1];
        LoadIsWrap(w, d);
        next := next + [Comb(line, Sig(true, Load(w, d)))];
      } else {
        next := next + [Comb(r.line, IDLE)];
      }
    }
  }

  method ClockAccums(c: Config, base: nat, accums: seq<Sig>, input: Sig) returns (next: seq<Sig>)
    requires |accums| == c.order
    ensures next == AccumsStep(c, base, accums, input)
  {
    hide Wrap, Load, Pow2, Fits, Config.Width;
    next := [];
    for n := 0 to c.order
      invariant |next| == n
      invariant forall j :: 0 <= j < n ==> next[j] == AccumsStep(c, base, accums, input)[j]
    {
      var i, w := if n == 0 then input else accums[n - 1], c.Width(base + (n + 1));
      if i.valid {
        LoadIsWrap(w, accums[n].value + i.value);
        next := next + [Sig(true, Load(w, accums[n].value + i.value))];
      } else {
        next := next + [IDLE];
      }
    }
  }

  lemma FloorBounds(y: int, h: int, p: int)
    requires p > 0 && -(h * p) <= y < h * p
    ensures -h <= y / p < h
  {
    var q := y / p;
    assert y == q * p + y % p;
    MulAtLeast(q - h + 1, p);
    assert (q - h + 1) * p == q * p - h * p + p;
    MulAtLeast(q + h, p);
    assert (q + h) * p == q * p + h * p;
  }

  lemma FloorFits(outLen: Positive, shift: nat, y: int)
    requires Fits(outLen + shift, y)
    ensures Fits(outLen, y / Pow2(shift))
  {
    Pow2Add(outLen - 1, shift);
    FloorBounds(y, Pow2(outLen - 1), Pow2(shift));
  }

  /** Moving one clock on either reaches the next multiple of the rate or stays in the
      same period. */
  lemma PeriodAdvances(e: int, rate: Positive)
    ensures e % rate == 0 ==> (e - 1) / rate == e / rate - 1 && (e - 1) % rate == rate - 1
    ensures e % rate != 0 ==> (e - 1) / rate == e / rate && (e - 1) % rate == e % rate - 1
  {
    var q, m := e / rate, e % rate;
    assert e == q * rate + m;
    if m == 0 {
      assert e - 1 == (q - 1) * rate + (rate - 1);
      RemainderUnique(e - 1, q - 1, rate - 1, rate);
    } else {
      RemainderUnique(e - 1, q, m - 1, rate);
    }
  }
}

/** Two's complement registers of a fixed width, read as the synthesised hardware reads
    them: a value that does not fit wraps around.  Everything the CIC proofs need to know
    about wrap-around is here. */
module Registers {

  function Pow(b: nat, e: nat): (p: nat)
    ensures b >= 1 ==> p >= 1
  {
    if e == 0 then 1 else b * Pow(b, e - 1)
  }

  function Pow2(e: nat): (p: nat)
    ensures p >= 1
  {
    if e == 0 then 1 else 2 * Pow2(e - 1)
  }

  /** The integer reading of `ceil(log(g, 2))`: the least exponent whose power reaches `g`. */
  function CeilLog2(g: nat): (c: nat)
    requires g >= 1
    ensures Pow2(c) >= g
    ensures c > 0 ==> Pow2(c - 1) < g
  {
    CeilLog2From(g, 0)
  }

  function CeilLog2From(g: nat, from: nat): (c: nat)
    requires g >= 1
    requires from == 0 || Pow2(from - 1) < g
    ensures Pow2(c) >= g && (c > 0 ==> Pow2(c - 1) < g)
    decreases g - Pow2(from)
  {
    if Pow2(from) >= g then from else CeilLog2From(g, from + 1)
  }

  lemma {:induction false} Pow2Monotone(a: nat, b: nat)
    requires a <= b
    ensures Pow2(a) <= Pow2(b)
    decreases b
  {
    if a < b { Pow2Monotone(a, b - 1); }
  }

  lemma CeilLog2Unique(g: Positive, e: nat)
    requires Pow2(e) >= g && (e > 0 ==> Pow2(e - 1) < g)
    ensures CeilLog2(g) == e
  {
    var c := CeilLog2(g);
    if c > e { Pow2Monotone(e, c - 1); }
    if c < e { Pow2Monotone(c, e - 1); }
  }

  lemma {:induction false} Pow2Add(a: nat, b: nat)
    ensures Pow2(a + b) == Pow2(a) * Pow2(b)
    decreases b
  {
    if b > 0 {
      Pow2Add(a, b - 1);
      var p, q := Pow2(a), Pow2(b - 1);
      assert Pow2(a + b) == 2 * (p * q) && Pow2(b) == 2 * q;
      assert 2 * (p * q) == p * (2 * q);
    }
  }

  lemma {:induction false} PowMonotone(a: nat, b: nat, e: nat)
    requires a <= b
    ensures Pow(a, e) <= Pow(b, e)
  {
    if e > 0 {
      PowMonotone(a, b, e - 1);
      MulMonotone(a, b, Pow(a, e - 1), Pow(b, e - 1));
    }
  }

  lemma MulMonotone(a: nat, b: nat, c: nat, d: nat)
    requires a <= b && c <= d
    ensures a * c <= b * d
  {
    assert a * c <= b * c <= b * d;
  }

  type Positive = n: nat | n >= 1 witness 1

  /** `v` lies in the half-open symmetric interval of radius `b`: what a signed register
      of width `w` can hold is exactly the interval of radius `Pow2(w - 1)`. */
  predicate InRange(v: int, b: int) {
    -b <= v < b
  }

  predicate Fits(w: Positive, v: int) {
    InRange(v, Pow2(w - 1))
  }

  function Offset(v: int, k: int, p: int): int {
    v + k * p
  }

  ghost predicate Congruent(w: Positive, a: int, b: int) {
    exists k :: a == Offset(b, k, Pow2(w))
  }

  /** The value a signed `w`-bit register holds after being loaded with `v`: the one value in
      range that differs from `v` by a multiple of the modulus. */
  ghost function Wrap(w: Positive, v: int): (r: int)
    ensures Fits(w, r)
    ensures Fits(w, v) ==> r == v
  {
    assert Fits(w, Load(w, v)) && Congruent(w, Load(w, v), v);
    var r :| Fits(w, r) && Congruent(w, r, v);
    assert Fits(w, v) ==> r == v by {
      if Fits(w, v) { assert v == Offset(v, 0, Pow2(w)); CongruentInRange(w, r, v); }
    }
    r
  }

  /** How a register computes that value. */
  function Load(w: Positive, v: int): (r: int)
    ensures Fits(w, r) && Congruent(w, r, v)
  {
    var p: int, h: int := Pow2(w), Pow2(w - 1);
    var q := (v + h) / p;
    assert v + h == q * p + (v + h) % p;
    assert (v + h) % p - h == Offset(v, -q, p);
    (v + h) % p - h
  }

  lemma LoadIsWrap(w: Positive, v: int)
    ensures Load(w, v) == Wrap(w, v)
  {
    WrapUnique(w, v, Load(w, v));
  }

  lemma MulAtLeast(k: int, p: int)
    requires p > 0
    ensures k >= 1 ==> k * p >= p
    ensures k <= -1 ==> k * p <= -p
  {
    if k >= 1 { assert k * p == p + (k - 1) * p && (k - 1) * p >= 0; }
    if k <= -1 { assert k * p == -p - (-k - 1) * p && (-k - 1) * p >= 0; }
  }

  /** Quotient and remainder are unique. */
  lemma RemainderUnique(a: int, q: int, r: int, p: int)
    requires p > 0 && 0 <= r < p && a == q * p + r
    ensures a % p == r && a / p == q
  {
    var d := a / p - q;
    assert a == (a / p) * p + a % p;
    assert d * p == (a / p) * p - q * p == r - a % p;
    MulAtLeast(d, p);
  }

  /** Two values in range that differ by a multiple of the modulus are equal. */
  lemma CongruentInRange(w: Positive, a: int, b: int)
    requires Fits(w, a) && Fits(w, b) && Congruent(w, a, b)
    ensures a == b
  {
    var k: int :| a == Offset(b, k, Pow2(w));
    MulAtLeast(k, Pow2(w));
  }

  lemma CongruentToBoth(w: Positive, a: int, b: int, v: int)
    requires Congruent(w, a, v) && Congruent(w, b, v)
    ensures Congruent(w, a, b)
  {
    var p: int := Pow2(w);
    var k: int :| a == Offset(v, k, p);
    var l: int :| b == Offset(v, l, p);
    assert (k - l) * p == k * p - l * p;
    assert a == Offset(b, k - l, p);
  }

  lemma CongruentSum(w: Positive, a: int, b: int, c: int, d: int)
    requires Congruent(w, a, b) && Congruent(w, c, d)
    ensures Congruent(w, a + c, b + d) && Congruent(w, a - c, b - d)
  {
    var p: int := Pow2(w);
    var k: int :| a == Offset(b, k, p);
    var l: int :| c == Offset(d, l, p);
    assert (k + l) * p == k * p + l * p && (k - l) * p == k * p - l * p;
    assert a + c == Offset(b + d, k + l, p) && a - c == Offset(b - d, k - l, p);
  }

  lemma WrapCongruent(w: Positive, v: int)
    ensures Congruent(w, Wrap(w, v), v)
  {
    assert Fits(w, Load(w, v)) && Congruent(w, Load(w, v), v);
  }

  lemma WrapUnique(w: Positive, v: int, r: int)
    requires Fits(w, r) && Congruent(w, r, v)
    ensures Wrap(w, v) == r
  {
    WrapCongruent(w, v);
    CongruentToBoth(w, Wrap(w, v), r, v);
    CongruentInRange(w, Wrap(w, v), r);
  }

  /** Arithmetic on wrapped values, wrapped again at the same width, is the wrapped result of
      the exact arithmetic: what a wrapping register loses, its own modulus never needed. */
  lemma WrapSums(w: Positive, a: int, b: int)
    ensures Wrap(w, Wrap(w, a) + Wrap(w, b)) == Wrap(w, a + b)
    ensures Wrap(w, Wrap(w, a) - Wrap(w, b)) == Wrap(w, a - b)
  {
    WrapCongruent(w, a);
    WrapCongruent(w, b);
    CongruentSum(w, Wrap(w, a), a, Wrap(w, b), b);
    WrapOfCongruent(w, Wrap(w, a) + Wrap(w, b), a + b);
    WrapOfCongruent(w, Wrap(w, a) - Wrap(w, b), a - b);
  }

  lemma WrapOfCongruent(w: Positive, a: int, b: int)
    requires Congruent(w, a, b)
    ensures Wrap(w, a) == Wrap(w, b)
  {
    WrapCongruent(w, a);
    CongruentTrans(w, Wrap(w, a), a, b);
    WrapUnique(w, b, Wrap(w, a));
  }

  lemma CongruentTrans(w: Positive, a: int, b: int, c: int)
    requires Congruent(w, a, b) && Congruent(w, b, c)
    ensures Congruent(w, a, c)
  {
    var p: int := Pow2(w);
    var k: int :| a == Offset(b, k, p);
    var l: int :| b == Offset(c, l, p);
    assert (k + l) * p == k * p + l * p;
    assert a == Offset(c, k + l, p);
  }
}

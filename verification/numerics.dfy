/** Optional values, used for "key absent" and "not yet observed". */
module Wrappers {

  datatype Option<+T> = None | Some(value: T)
}

/** Real-number stand-ins for the float built-ins the simulation uses
    (`int()`, `math.ceil`, `min`, `max`, `np.clip`) and for the
    transcendental functions it calls, which the model leaves uninterpreted. */
module Numerics {

  type PosReal = x: real | x > 0.0 witness 1.0

  /** The transcendental parts of the simulation, supplied from outside.
      Nothing is assumed about `sqrt`; `pow10` is positive by its type. */
  datatype Maths = Maths(
    sqrt: real -> real,       // x ** 0.5 (the price elasticity exponent)
    pow10: real -> PosReal,   // 10 ** x
    decay: real,              // np.exp(-GROWTH_RATE_PER_DAY * DAYS_PER_ITERATION) = e^-0.5
    divByZero: real -> real   // the value numpy yields for x / 0 (inf or nan), left unspecified
  ) {
    /** e^-0.5 = 0.6065...; this bracket is all the proofs use about it. */
    predicate Valid() {
      0.6 < decay < 0.61
    }
  }

  /** Float division as numpy performs it: an exact quotient when the divisor
      is non-zero, and the unspecified stand-in for inf/nan otherwise. */
  function Quot(m: Maths, a: real, b: real): (q: real)
    ensures b != 0.0 ==> q * b == a
  {
    if b != 0.0 then a / b else m.divByZero(a)
  }

  /** Python's `int(x)` on a float: rounds toward zero. */
  function Trunc(x: real): (n: int)
    ensures x >= 0.0 ==> 0 <= n && n as real <= x < n as real + 1.0
    ensures x <= 0.0 ==> n <= 0 && n as real - 1.0 < x <= n as real
  {
    if x >= 0.0 then x.Floor else -((-x).Floor)
  }

  /** Python's `math.ceil(x)`: the least integer not below `x`. */
  function Ceil(x: real): (n: int)
    ensures x <= n as real < x + 1.0
  {
    -((-x).Floor)
  }

  function Min(a: real, b: real): (r: real)
    ensures r <= a && r <= b && (r == a || r == b)
  {
    if a <= b then a else b
  }

  function Max(a: real, b: real): (r: real)
    ensures r >= a && r >= b && (r == a || r == b)
  {
    if a >= b then a else b
  }

  /** `np.clip(x, lo, hi)`, i.e. `min(max(x, lo), hi)`. */
  function Clip(x: real, lo: real, hi: real): (r: real)
    requires lo <= hi
    ensures lo <= r <= hi
    ensures lo <= x <= hi ==> r == x
    ensures x < lo ==> r == lo
    ensures x > hi ==> r == hi
  {
    Min(Max(x, lo), hi)
  }

  /** Clipping preserves order, so a monotone raw value stays monotone. */
  lemma ClipMonotone(x: real, y: real, lo: real, hi: real)
    requires lo <= hi && x <= y
    ensures Clip(x, lo, hi) <= Clip(y, lo, hi)
  {
  }

  /** Truncating a quotient by a positive divisor and multiplying back never
      exceeds the dividend: how every "what the gold affords" bound works. */
  lemma TruncQuotient(a: real, p: real)
    requires a >= 0.0 && p > 0.0
    ensures 0 <= Trunc(a / p)
    ensures Trunc(a / p) as real * p <= a
  {
    var n := Trunc(a / p);
    assert n as real <= a / p;
    calc {
      n as real * p;
    <= { MulMonotone(n as real, a / p, p); }
      (a / p) * p;
    ==
      a;
    }
  }

  lemma MulMonotone(x: real, y: real, p: real)
    requires x <= y && p >= 0.0
    ensures x * p <= y * p
  {
  }

  /** a <= b * p with p > 0 gives a / p <= b. */
  lemma QuotientAtMost(a: real, b: real, p: real)
    requires p > 0.0 && a <= b * p
    ensures a / p <= b
  {
    var q := a / p;
    assert q * p == a;
    if q > b {
      assert (q - b) * p > 0.0;
    }
  }

  /** b * p <= a with p > 0 gives b <= a / p. */
  lemma QuotientAtLeast(a: real, b: real, p: real)
    requires p > 0.0 && b * p <= a
    ensures b <= a / p
  {
    var q := a / p;
    assert q * p == a;
    if q < b {
      assert (b - q) * p > 0.0;
    }
  }
}

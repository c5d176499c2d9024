/** The control blocks that run in real time, over the reals: slew-rate limiter, low-pass filter,
    PI controller with dynamic anti-windup, and the transposed second and third order filters. */
module Dsp {
  /** The macro behind every limit: the upper limit first, then the lower one. */
  function Saturate(x: real, max: real, min: real): real {
    var y := if x > max then max else x;
    if y < min then min else y
  }

  function Abs(x: real): real { if x < 0.0 then -x else x }

  /** A product, by a name that proofs can treat as a whole. */
  function Times(x: real, y: real): real { x * y }

  // ----- Slew-rate limiter -----

  function SlewStep(deltaMax: real, out: real, x: real): real { out + Saturate(x - out, deltaMax, -deltaMax) }

  /** The output after each of the inputs in turn. */
  function SlewRun(deltaMax: real, out: real, xs: seq<real>): real
    decreases |xs|
  {
    if xs == [] then out else SlewStep(deltaMax, SlewRun(deltaMax, out, xs[..|xs| - 1]), xs[|xs| - 1])
  }

  /** No step is larger than the limit. */
  lemma SlewBounded(deltaMax: real, out: real, x: real)
    ensures deltaMax >= 0.0 ==> Abs(SlewStep(deltaMax, out, x) - out) <= deltaMax
    ensures deltaMax < 0.0 ==> SlewStep(deltaMax, out, x) == out - deltaMax
  {}

  /** On a constant input the distance shrinks by the limit at every step, never below zero and
      never to the other side. */
  lemma {:induction false} SlewApproach(deltaMax: real, out: real, x: real, n: nat)
    requires deltaMax >= 0.0
    ensures
      var y := SlewRun(deltaMax, out, seq(n, _ => x));
      var d, covered := Abs(x - out), Times(n as real, deltaMax);
      y == if d <= covered then x else if out < x then out + covered else out - covered
  {
    if n == 0 {
      assert Times(0.0, deltaMax) == 0.0;
    } else {
      hide Times;
      SlewApproach(deltaMax, out, x, n - 1);
      var xs := seq(n, _ => x);
      assert xs[..n - 1] == seq(n - 1, _ => x);
      OneMoreStep(deltaMax, n);
    }
  }

  lemma OneMoreStep(deltaMax: real, n: nat)
    requires n > 0 && deltaMax >= 0.0
    ensures Times(n as real, deltaMax) == Times((n - 1) as real, deltaMax) + deltaMax
    ensures Times((n - 1) as real, deltaMax) >= 0.0
  {}

  /** A constant input is reached exactly after n steps if and only if n steps of the limit cover
      the distance; so first after the quotient rounded up. */
  lemma SlewReaches(deltaMax: real, out: real, x: real, n: nat)
    requires deltaMax > 0.0
    ensures SlewRun(deltaMax, out, seq(n, _ => x)) == x <==> Abs(x - out) <= n as real * deltaMax
    ensures SlewRun(deltaMax, out, seq(n, _ => x)) == x <==> n as real >= Abs(x - out) / deltaMax
  {
    SlewApproach(deltaMax, out, x, n);
    Covers(Abs(x - out), deltaMax, n as real);
  }

  lemma Covers(d: real, m: real, n: real)
    requires m > 0.0
    ensures n >= d / m <==> d <= n * m
  {
    var q := d / m;
    assert q * m == d;
    if n >= q {
      assert (n - q) * m >= 0.0;
    } else {
      assert (q - n) * m > 0.0;
    }
  }

  class SlewLimiter {
    var maxSlewrate: real
    const freqSampling: real
    var deltaMax: real
    var out: real

    constructor (maxSlewrate: real, freqSampling: real)
      requires freqSampling != 0.0
      ensures out == 0.0 && deltaMax == maxSlewrate / freqSampling
      ensures this.freqSampling == freqSampling && this.maxSlewrate == maxSlewrate
    {
      this.freqSampling := freqSampling;
      out := 0.0;
      this.maxSlewrate := maxSlewrate;
      deltaMax := maxSlewrate / freqSampling;
    }

    method Cfg(maxSlewrate: real)
      requires freqSampling != 0.0
      modifies this`maxSlewrate, this`deltaMax
      ensures this.maxSlewrate == maxSlewrate && deltaMax * freqSampling == maxSlewrate
    {
      this.maxSlewrate := maxSlewrate;
      deltaMax := maxSlewrate / freqSampling;
    }

    method Reset()
      modifies this`out
      ensures out == 0.0
    {
      out := 0.0;
    }

    method Run(x: real, bypass: bool)
      modifies this`out
      ensures bypass ==> out == x
      ensures !bypass ==> out == SlewStep(deltaMax, old(out), x)
      ensures !bypass && deltaMax >= 0.0 ==>
                Abs(out - old(out)) <= deltaMax && (Abs(x - old(out)) <= deltaMax ==> out == x)
                && Abs(x - out) <= Abs(x - old(out))
    {
      if bypass {
        out := x;
      } else {
        var delta := x - out;
        if delta > deltaMax { delta := deltaMax; }
        if delta < -deltaMax { delta := -deltaMax; }
        out := out + delta;
      }
    }
  }

  // ----- Low-pass filter -----

  function LpfStep(k: real, a: real, out: real, inOld: real, x: real): real { out * a + k * (inOld + x) }

  function LpfK(wt: real): real
    requires 2.0 + wt != 0.0
  {
    wt / (2.0 + wt)
  }

  function LpfA(wt: real): real
    requires 2.0 + wt != 0.0
  {
    (2.0 - wt) / (2.0 + wt)
  }

  function LpfRun(k: real, a: real, out: real, inOld: real, xs: seq<real>): real
    decreases |xs|
  {
    if xs == [] then out
    else
      var n := |xs| - 1;
      LpfStep(k, a, LpfRun(k, a, out, inOld, xs[..n]), if n == 0 then inOld else xs[n - 1], xs[n])
  }

  lemma Cancel(x: real, s: real)
    requires s != 0.0 && x * s == s
    ensures x == 1.0
  {
    assert (x - 1.0) * s == 0.0;
  }

  /** Constant inputs come out unchanged in the end. */
  lemma LpfUnitGain(wt: real)
    requires 2.0 + wt != 0.0
    ensures LpfA(wt) + 2.0 * LpfK(wt) == 1.0
  {
    var a, k, s := LpfA(wt), LpfK(wt), 2.0 + wt;
    assert a * s == 2.0 - wt;
    assert k * s == wt;
    assert (a + 2.0 * k) * s == a * s + 2.0 * (k * s);
    Cancel(a + 2.0 * k, s);
  }

  lemma LpfSigns(wt: real)
    requires 2.0 + wt > 0.0
    ensures LpfA(wt) >= 0.0 <==> wt <= 2.0
    ensures LpfK(wt) >= 0.0 <==> wt >= 0.0
  {
    Sign(2.0 - wt, 2.0 + wt);
    Sign(wt, 2.0 + wt);
  }

  lemma Sign(x: real, s: real)
    requires s > 0.0
    ensures x / s >= 0.0 <==> x >= 0.0
  {
    Covers(x, s, 0.0);
    Covers(-x, s, 0.0);
    assert (-x) / s == -(x / s);
  }

  predicate Between(lo: real, x: real, hi: real) { lo <= x <= hi }

  lemma Convex(lo: real, hi: real, k: real, a: real, y: real, u: real, v: real)
    requires k >= 0.0 && a >= 0.0 && a + 2.0 * k == 1.0
    requires Between(lo, y, hi) && Between(lo, u, hi) && Between(lo, v, hi)
    ensures Between(lo, LpfStep(k, a, y, u, v), hi)
  {
    hide Times, LpfStep;
    Weigh(a, lo, y, hi);
    Weigh(k, lo, u, hi);
    Weigh(k, lo, v, hi);
    Expand(k, a, y, u, v);
    Whole(a, k, lo);
    Whole(a, k, hi);
  }

  lemma Expand(k: real, a: real, y: real, u: real, v: real)
    ensures LpfStep(k, a, y, u, v) == Times(a, y) + Times(k, u) + Times(k, v)
  {}

  lemma Weigh(w: real, lo: real, x: real, hi: real)
    requires w >= 0.0 && lo <= x <= hi
    ensures Times(w, lo) <= Times(w, x) <= Times(w, hi)
  {
    assert w * (x - lo) >= 0.0 && w * (hi - x) >= 0.0;
  }

  lemma Whole(a: real, k: real, x: real)
    requires a + 2.0 * k == 1.0
    ensures Times(a, x) + Times(k, x) + Times(k, x) == x
  {
    assert (a + 2.0 * k) * x == a * x + 2.0 * (k * x);
  }

  /** For 0 < wt <= 2 every output of a run lies in any interval that holds the state at its start
      and its inputs. */
  lemma {:induction false} LpfStaysInHull(wt: real, out: real, inOld: real, xs: seq<real>, lo: real, hi: real)
    requires 0.0 < wt <= 2.0 && Between(lo, out, hi) && Between(lo, inOld, hi)
    requires forall i :: 0 <= i < |xs| ==> Between(lo, xs[i], hi)
    ensures Between(lo, LpfRun(LpfK(wt), LpfA(wt), out, inOld, xs), hi)
    decreases |xs|
  {
    if xs != [] {
      var n := |xs| - 1;
      LpfStaysInHull(wt, out, inOld, xs[..n], lo, hi);
      LpfUnitGain(wt);
      LpfSigns(wt);
      hide LpfA, LpfK, LpfStep;
      Convex(lo, hi, LpfK(wt), LpfA(wt), LpfRun(LpfK(wt), LpfA(wt), out, inOld, xs[..n]),
             if n == 0 then inOld else xs[n - 1], xs[n]);
    }
  }

  /** One step stays between 0 and 1 whenever its state and input do. */
  ghost predicate KeepsUnitInterval(k: real, a: real) {
    forall y, u, v :: Between(0.0, y, 1.0) && Between(0.0, u, 1.0) && Between(0.0, v, 1.0) ==>
      Between(0.0, LpfStep(k, a, y, u, v), 1.0)
  }

  /** The bound on wt is exact: past it a step can leave the interval. */
  lemma LpfHullExactly(wt: real)
    requires 2.0 + wt > 0.0
    ensures KeepsUnitInterval(LpfK(wt), LpfA(wt)) <==> 0.0 <= wt <= 2.0
  {
    var k, a := LpfK(wt), LpfA(wt);
    LpfUnitGain(wt);
    LpfSigns(wt);
    hide LpfA, LpfK;
    if 0.0 <= wt <= 2.0 {
      forall y, u, v | Between(0.0, y, 1.0) && Between(0.0, u, 1.0) && Between(0.0, v, 1.0)
        ensures Between(0.0, LpfStep(k, a, y, u, v), 1.0)
      {
        Convex(0.0, 1.0, k, a, y, u, v);
      }
    } else if wt < 0.0 {
      assert LpfStep(k, a, 0.0, 1.0, 1.0) == 2.0 * k;
      assert Between(0.0, 0.0, 1.0) && Between(0.0, 1.0, 1.0);
    } else {
      assert LpfStep(k, a, 1.0, 0.0, 0.0) == a;
      assert Between(0.0, 0.0, 1.0) && Between(0.0, 1.0, 1.0);
    }
  }

  function Power(a: real, n: nat): real { if n == 0 then 1.0 else a * Power(a, n - 1) }

  /** On a constant input the error shrinks geometrically. */
  lemma {:induction false} LpfError(wt: real, out: real, c: real, n: nat)
    requires 2.0 + wt != 0.0
    ensures LpfRun(LpfK(wt), LpfA(wt), out, c, seq(n, _ => c)) - c == Power(LpfA(wt), n) * (out - c)
  {
    var k, a := LpfK(wt), LpfA(wt);
    var xs := seq(n, _ => c);
    hide LpfK, LpfA, LpfStep;
    if n == 0 {
      assert xs == [] && Power(a, 0) == 1.0;
    } else {
      LpfError(wt, out, c, n - 1);
      LpfUnitGain(wt);
      assert xs[..n - 1] == seq(n - 1, _ => c);
      var y := LpfRun(k, a, out, c, xs[..n - 1]);
      assert LpfRun(k, a, out, c, xs) == LpfStep(k, a, y, c, c);
      LpfErrorStep(k, a, y, c);
      Regroup(a, Power(a, n - 1), out - c);
    }
  }

  lemma Regroup(x: real, y: real, z: real)
    ensures x * (y * z) == x * y * z
  {}

  lemma LpfErrorStep(k: real, a: real, y: real, c: real)
    requires a + 2.0 * k == 1.0
    ensures LpfStep(k, a, y, c, c) - c == a * (y - c)
  {
    assert k * (c + c) == (2.0 * k) * c;
    assert (1.0 - a) * c == c - a * c;
    assert a * (y - c) == a * y - a * c;
  }

  const TWO_PI := 2.0 * 3.141592653589793

  class LowPass {
    const freqSampling: real
    var freqCut: real
    var k: real
    var a: real
    var inOld: real
    var out: real

    constructor (freqCut: real, freqSampling: real)
      requires freqSampling != 0.0 && 2.0 + TWO_PI * freqCut / freqSampling != 0.0
      ensures this.freqSampling == freqSampling && inOld == out == 0.0
      ensures k == LpfK(TWO_PI * freqCut / freqSampling) && a == LpfA(TWO_PI * freqCut / freqSampling)
    {
      this.freqSampling := freqSampling;
      inOld, out := 0.0, 0.0;
      new;
      Cfg(freqCut);
    }

    method Cfg(freqCut: real)
      requires freqSampling != 0.0 && 2.0 + TWO_PI * freqCut / freqSampling != 0.0
      modifies this`freqCut, this`k, this`a
      ensures this.freqCut == freqCut
      ensures k == LpfK(TWO_PI * freqCut / freqSampling) && a == LpfA(TWO_PI * freqCut / freqSampling)
      ensures a + 2.0 * k == 1.0
    {
      var wt := TWO_PI * freqCut / freqSampling;
      LpfUnitGain(wt);
      this.freqCut := freqCut;
      k := wt / (2.0 + wt);
      a := (2.0 - wt) / (2.0 + wt);
    }

    method Reset()
      modifies this`inOld, this`out
      ensures inOld == out == 0.0
    {
      inOld, out := 0.0, 0.0;
    }

    method Run(x: real)
      modifies this`inOld, this`out
      ensures out == LpfStep(k, a, old(out), old(inOld), x) && inOld == x
      ensures k >= 0.0 && a >= 0.0 && a + 2.0 * k == 1.0 ==> forall lo, hi ::
                Between(lo, old(out), hi) && Between(lo, old(inOld), hi) && Between(lo, x, hi) ==> Between(lo, out, hi)
    {
      if k >= 0.0 && a >= 0.0 && a + 2.0 * k == 1.0 {
        forall lo, hi | Between(lo, out, hi) && Between(lo, inOld, hi) && Between(lo, x, hi)
          ensures Between(lo, LpfStep(k, a, out, inOld, x), hi)
        {
          Convex(lo, hi, k, a, out, inOld, x);
        }
      }
      var yacc := out * a;
      yacc := yacc + k * (inOld + x);
      inOld := x;
      out := yacc;
    }
  }

  // ----- PI controller -----

  datatype PiCoeffs = PiCoeffs(kp: real, ki: real, uMax: real, uMin: real)

  datatype PiState = PiState(uProp: real, uInt: real, out: real)

  function PiStep(c: PiCoeffs, s: PiState, x: real): PiState {
    var prop := Saturate(Times(x, c.kp), c.uMax, c.uMin);
    var int' := Saturate(s.uInt + Times(x, c.ki), c.uMax - prop, c.uMin - prop);
    PiState(prop, int', int' + prop)
  }

  /** The state after the inputs, from reset. */
  function PiRun(c: PiCoeffs, xs: seq<real>): PiState
    decreases |xs|
  {
    if xs == [] then PiState(0.0, 0.0, 0.0) else PiStep(c, PiRun(c, xs[..|xs| - 1]), xs[|xs| - 1])
  }

  /** From the first step on the output keeps to the limits and the integral to their distance,
      exactly if the limits are in order; otherwise the output sits on the lower one. */
  lemma PiBounded(c: PiCoeffs, xs: seq<real>)
    requires xs != []
    ensures Between(c.uMin, PiRun(c, xs).out, c.uMax) <==> c.uMin <= c.uMax
    ensures c.uMin <= c.uMax ==> Abs(PiRun(c, xs).uInt) <= c.uMax - c.uMin
    ensures c.uMin > c.uMax ==> PiRun(c, xs).out == c.uMin
  {
    hide Times;
    var s := PiRun(c, xs[..|xs| - 1]);
    assert PiRun(c, xs) == PiStep(c, s, xs[|xs| - 1]);
  }

  function Sum(xs: seq<real>): real
    decreases |xs|
  {
    if xs == [] then 0.0 else Sum(xs[..|xs| - 1]) + xs[|xs| - 1]
  }

  /** At each input the unlimited proportional part and the unlimited output are within the limits. */
  predicate WithinLimits(c: PiCoeffs, xs: seq<real>)
    decreases |xs|
  {
    xs == [] ||
    (var last := |xs| - 1;
     && WithinLimits(c, xs[..last])
     && Between(c.uMin, Times(xs[last], c.kp), c.uMax)
     && Between(c.uMin, Times(xs[last], c.kp) + Times(Sum(xs), c.ki), c.uMax))
  }

  /** No saturation has changed anything so far. */
  predicate Unclipped(c: PiCoeffs, xs: seq<real>)
    decreases |xs|
  {
    xs == [] ||
    (var last := |xs| - 1;
     var s, t := PiRun(c, xs[..last]), PiRun(c, xs);
     && Unclipped(c, xs[..last])
     && t.uProp == Times(xs[last], c.kp) && t.uInt == s.uInt + Times(xs[last], c.ki))
  }

  lemma Distribute(x: real, y: real, k: real)
    ensures Times(x + y, k) == Times(x, k) + Times(y, k)
    ensures Times(0.0, k) == 0.0
  {}

  /** As long as nothing has clipped, which the inputs alone decide, the controller is the plain PI
      law. */
  lemma {:induction false} PiIsLinear(c: PiCoeffs, xs: seq<real>)
    requires c.uMin <= c.uMax
    ensures Unclipped(c, xs) <==> WithinLimits(c, xs)
    ensures Unclipped(c, xs) ==> PiRun(c, xs).uInt == Times(Sum(xs), c.ki)
    ensures Unclipped(c, xs) && xs != [] ==> PiRun(c, xs).out == Times(xs[|xs| - 1], c.kp) + Times(Sum(xs), c.ki)
    decreases |xs|
  {
    hide Times;
    if xs == [] {
      Distribute(0.0, 0.0, c.ki);
    } else {
      var last := |xs| - 1;
      PiIsLinear(c, xs[..last]);
      Distribute(Sum(xs[..last]), xs[last], c.ki);
    }
  }

  class Pi {
    var c: PiCoeffs
    var s: PiState

    constructor (c: PiCoeffs)
      ensures this.c == c && s == PiRun(c, [])
    {
      this.c, s := c, PiState(0.0, 0.0, 0.0);
    }

    method Reset()
      modifies this`s
      ensures s == PiRun(c, [])
    {
      s := PiState(0.0, 0.0, 0.0);
    }

    method Run(x: real)
      modifies this`s
      ensures s == PiStep(c, old(s), x)
      ensures c.uMin <= c.uMax ==> c.uMin <= s.out <= c.uMax
    {
      hide Times;
      var temp := Times(x, c.kp);
      if temp > c.uMax { temp := c.uMax; }
      if temp < c.uMin { temp := c.uMin; }
      s := s.(uProp := temp);
      var dynMax, dynMin := c.uMax - temp, c.uMin - temp;
      temp := s.uInt + Times(x, c.ki);
      if temp > dynMax { temp := dynMax; }
      if temp < dynMin { temp := dynMin; }
      s := s.(uInt := temp);
      s := s.(out := s.uInt + s.uProp);
    }
  }

  // ----- Second and third order filters -----

  datatype IirCoeffs = IirCoeffs(b0: real, b1: real, b2: real, b3: real, a1: real, a2: real, a3: real,
                                 uMax: real, uMin: real)

  datatype IirState = IirState(w1: real, w2: real, w3: real, out: real)

  /** One input, and the coefficients in force when it comes. */
  datatype Sample = Sample(c: IirCoeffs, x: real)

  function IirStep(s: IirState, u: Sample): IirState {
    var y := Saturate(Times(u.x, u.c.b0) + s.w1, u.c.uMax, u.c.uMin);
    IirState(Times(u.x, u.c.b1) + s.w2 - Times(y, u.c.a1), Times(u.x, u.c.b2) + s.w3 - Times(y, u.c.a2),
             Times(u.x, u.c.b3) - Times(y, u.c.a3), y)
  }

  /** The transposed filter from reset. */
  function IirRun(us: seq<Sample>): IirState
    decreases |us|
  {
    if us == [] then IirState(0.0, 0.0, 0.0, 0.0) else IirStep(IirRun(us[..|us| - 1]), us[|us| - 1])
  }

  /** What sample i adds to the outputs one, two and three steps later; nothing before the reset. */
  function Adds1(us: seq<Sample>, ys: seq<real>, i: int): real
    requires i < |us| == |ys|
  {
    if i < 0 then 0.0 else Times(us[i].x, us[i].c.b1) - Times(ys[i], us[i].c.a1)
  }

  function Adds2(us: seq<Sample>, ys: seq<real>, i: int): real
    requires i < |us| == |ys|
  {
    if i < 0 then 0.0 else Times(us[i].x, us[i].c.b2) - Times(ys[i], us[i].c.a2)
  }

  function Adds3(us: seq<Sample>, ys: seq<real>, i: int): real
    requires i < |us| == |ys|
  {
    if i < 0 then 0.0 else Times(us[i].x, us[i].c.b3) - Times(ys[i], us[i].c.a3)
  }

  /** The direct difference equation with zero history: each past input and each past, already
      saturated, output with the coefficients of its own time. */
  function Direct(us: seq<Sample>): (ys: seq<real>)
    ensures |ys| == |us|
    decreases |us|
  {
    if us == [] then []
    else
      var n := |us| - 1;
      var past, ys, u := us[..n], Direct(us[..n]), us[n];
      var sum := Times(u.x, u.c.b0) + Adds1(past, ys, n - 1) + Adds2(past, ys, n - 2) + Adds3(past, ys, n - 3);
      ys + [Saturate(sum, u.c.uMax, u.c.uMin)]
  }

  /** What the registers of the transposed form hold, in terms of the past. */
  predicate RegistersOk(us: seq<Sample>, s: IirState) {
    var n, ys := |us|, Direct(us);
    && s.w1 == Adds1(us, ys, n - 1) + Adds2(us, ys, n - 2) + Adds3(us, ys, n - 3)
    && s.w2 == Adds2(us, ys, n - 1) + Adds3(us, ys, n - 2)
    && s.w3 == Adds3(us, ys, n - 1)
  }

  lemma AddsSnoc(us: seq<Sample>, ys: seq<real>, u: Sample, y: real, i: int)
    requires i < |us| == |ys|
    ensures Adds2(us + [u], ys + [y], i) == Adds2(us, ys, i)
    ensures Adds3(us + [u], ys + [y], i) == Adds3(us, ys, i)
  {}

  /** Over every run from reset, whether or not saturation clips and whenever the coefficients
      change, the transposed filter gives the outputs of the direct difference equation. */
  lemma {:induction false} TransposedIsDirect(us: seq<Sample>)
    ensures RegistersOk(us, IirRun(us))
    ensures us != [] ==> IirRun(us).out == Direct(us)[|us| - 1]
    decreases |us|
  {
    hide Times, Saturate;
    if us != [] {
      var n := |us| - 1;
      var past, u, ys := us[..n], us[n], Direct(us[..n]);
      TransposedIsDirect(past);
      var s, s' := IirRun(past), IirRun(us);
      var y := s'.out;
      assert us == past + [u] && s' == IirStep(s, u);
      assert Direct(us) == ys + [y];
      AddsSnoc(past, ys, u, y, n - 1);
      AddsSnoc(past, ys, u, y, n - 2);
    }
  }

  lemma RunNext(us: seq<Sample>, u: Sample)
    ensures IirRun(us + [u]) == IirStep(IirRun(us), u)
    ensures IirRun(us + [u]).out == Direct(us + [u])[|us|]
  {
    hide Times, Saturate;
    assert (us + [u])[..|us|] == us;
    TransposedIsDirect(us + [u]);
  }

  class Iir3p3z {
    var c: IirCoeffs
    var s: IirState
    /** The samples since the last reset. */
    ghost var run: seq<Sample>

    ghost predicate Valid()
      reads this
    {
      s == IirRun(run)
    }

    constructor (c: IirCoeffs)
      ensures Valid() && run == [] && this.c == c
    {
      this.c, s, run := c, IirState(0.0, 0.0, 0.0, 0.0), [];
    }

    method Cfg(c: IirCoeffs)
      requires Valid()
      modifies this`c
      ensures Valid() && this.c == c
    {
      this.c := c;
    }

    method Reset()
      modifies this`s, this`run
      ensures Valid() && run == []
    {
      s, run := IirState(0.0, 0.0, 0.0, 0.0), [];
    }

    method Run(x: real)
      requires Valid()
      modifies this`s, this`run
      ensures Valid() && run == old(run) + [Sample(c, x)]
      ensures s.out == Direct(run)[|run| - 1]
    {
      hide Times, IirRun, Direct;
      var yacc := Times(x, c.b0);
      yacc := yacc + s.w1;
      if yacc > c.uMax { yacc := c.uMax; }
      if yacc < c.uMin { yacc := c.uMin; }
      var w0 := Times(x, c.b1);
      w0 := w0 + s.w2;
      w0 := w0 - Times(yacc, c.a1);
      s := s.(w1 := w0);
      w0 := Times(x, c.b2);
      w0 := w0 + s.w3;
      w0 := w0 - Times(yacc, c.a2);
      s := s.(w2 := w0);
      w0 := Times(x, c.b3);
      w0 := w0 - Times(yacc, c.a3);
      s := s.(w3 := w0);
      s := s.(out := yacc);
      RunNext(run, Sample(c, x));
      run := run + [Sample(c, x)];
    }
  }

  datatype Iir2Coeffs = Iir2Coeffs(b0: real, b1: real, b2: real, a1: real, a2: real, uMax: real, uMin: real)

  /** A second order filter is a third order one whose last coefficients are zero. */
  function Embed(c: Iir2Coeffs): IirCoeffs { IirCoeffs(c.b0, c.b1, c.b2, 0.0, c.a1, c.a2, 0.0, c.uMax, c.uMin) }

  lemma ThirdIsNone(x: real, y: real)
    ensures Times(x, 0.0) == Times(y, 0.0) == 0.0
  {}

  class Iir2p2z {
    var c: Iir2Coeffs
    var w1: real
    var w2: real
    var out: real
    ghost var run: seq<Sample>

    ghost predicate Valid()
      reads this
    {
      IirRun(run) == IirState(w1, w2, 0.0, out)
    }

    constructor (c: Iir2Coeffs)
      ensures Valid() && run == [] && this.c == c
    {
      this.c, w1, w2, out, run := c, 0.0, 0.0, 0.0, [];
    }

    method Cfg(c: Iir2Coeffs)
      requires Valid()
      modifies this`c
      ensures Valid() && this.c == c
    {
      this.c := c;
    }

    method Reset()
      modifies this`w1, this`w2, this`out, this`run
      ensures Valid() && run == []
    {
      w1, w2, out, run := 0.0, 0.0, 0.0, [];
    }

    method Run(x: real)
      requires Valid()
      modifies this`w1, this`w2, this`out, this`run
      ensures Valid() && run == old(run) + [Sample(Embed(c), x)]
      ensures out == Direct(run)[|run| - 1]
    {
      hide Times, IirRun, Direct;
      var yacc := Times(x, c.b0);
      yacc := yacc + w1;
      if yacc > c.uMax { yacc := c.uMax; }
      if yacc < c.uMin { yacc := c.uMin; }
      var w0 := Times(x, c.b1);
      w0 := w0 + w2;
      w0 := w0 - Times(yacc, c.a1);
      w1 := w0;
      w0 := Times(x, c.b2);
      w0 := w0 - Times(yacc, c.a2);
      w2 := w0;
      out := yacc;
      RunNext(run, Sample(Embed(c), x));
      ThirdIsNone(x, yacc);
      run := run + [Sample(Embed(c), x)];
    }
  }
}

/** The discrete PID controller, over exact reals. */
module Pid {
  import opened Results

  // A product that proofs can treat as a term of its own.
  function Mul(x: real, y: real): real {
    x * y
  }

  lemma MulIsProduct(x: real, y: real)
    ensures Mul(x, y) == x * y
  {
  }

  datatype Parameters = Parameters(timestep: real, p: real, i: real, d: real, n: real)

  datatype Coefficients = Coefficients(a: real, b: real, c: real, d: real, e: real)

  function CoefficientsOf(k: Parameters): Coefficients {
    var (kp, ki, kd, n, ts) := (k.p, k.i, k.d, k.n, k.timestep);
    Coefficients(kp + kd * n,
                 -2.0 * kp + kp * n * ts + ki * ts - 2.0 * kd * n,
                 kp - kp * n * ts - ki * ts + ki * n * ts * ts + kd * n,
                 2.0 - n * ts,
                 n * ts - 1.0)
  }

  // The errors and controls of the current step and of the two before it.
  datatype History = History(error: real, errorT1: real, errorT2: real,
                             control: real, controlT1: real, controlT2: real)

  const RESET := History(0.0, 0.0, 0.0, 0.0, 0.0, 0.0)

  // One step of the recurrence.
  function Step(k: Coefficients, h: History, error: real): History {
    History(error, h.error, h.errorT1,
            Mul(k.d, h.control) + Mul(k.e, h.controlT1) + Mul(k.a, error) + Mul(k.b, h.error) + Mul(k.c, h.errorT1),
            h.control, h.controlT1)
  }

  function Run(k: Parameters, errors: seq<real>): History {
    if errors == [] then RESET
    else Step(CoefficientsOf(k), Run(k, errors[..|errors| - 1]), errors[|errors| - 1])
  }

  // ---- the textbook controller ----

  function IntegralGain(k: Parameters): real {
    k.i * k.timestep
  }

  function DerivativeGain(k: Parameters): real {
    k.d * k.n
  }

  function Filter(k: Parameters): real {
    k.n * k.timestep
  }

  function Last(errors: seq<real>): real {
    if errors == [] then 0.0 else errors[|errors| - 1]
  }

  function Front(errors: seq<real>): seq<real> {
    if errors == [] then [] else errors[..|errors| - 1]
  }

  // I_k = I_{k-1} + Ki Ts e_{k-1}
  function Integral(k: Parameters, errors: seq<real>): real {
    if errors == [] then 0.0
    else Integral(k, Front(errors)) + Mul(IntegralGain(k), Last(Front(errors)))
  }

  // D_k = (1 - N Ts) D_{k-1} + Kd N (e_k - e_{k-1})
  function Derivative(k: Parameters, errors: seq<real>): real {
    if errors == [] then 0.0
    else Mul(1.0 - Filter(k), Derivative(k, Front(errors))) +
         Mul(DerivativeGain(k), Last(errors) - Last(Front(errors)))
  }

  // Kp e_k + I_k + D_k
  function Textbook(k: Parameters, errors: seq<real>): real {
    Mul(k.p, Last(errors)) + Integral(k, errors) + Derivative(k, errors)
  }

  // ---- laws of products ----

  lemma MulDifference(x: real, y: real, z: real)
    ensures Mul(x, y - z) == Mul(x, y) - Mul(x, z)
  {
  }

  lemma MulAround(m: real, x: real)
    ensures Mul(1.0 - m, x) == x - Mul(m, x) && Mul(2.0 - m, x) == 2.0 * x - Mul(m, x)
    ensures Mul(m - 1.0, x) == Mul(m, x) - x
  {
  }

  lemma MulThrough(m: real, a: real, x: real)
    ensures Mul(Mul(m, a), x) == Mul(m, Mul(a, x))
  {
  }

  lemma MulThree(m: real, a: real, b: real, c: real)
    ensures Mul(m, a + b + c) == Mul(m, a) + Mul(m, b) + Mul(m, c)
  {
  }

  lemma MulFive(m: real, a: real, b: real, c: real, x: real, y: real)
    ensures Mul(m, a + (b + c) + (x + y)) == Mul(m, a) + Mul(m, b) + Mul(m, c) + Mul(m, x) + Mul(m, y)
  {
  }

  lemma MulB(kp: real, q: real, i: real, d: real, e: real)
    ensures Mul(-2.0 * kp + q + i - 2.0 * d, e) == -2.0 * Mul(kp, e) + Mul(q, e) + Mul(i, e) - 2.0 * Mul(d, e)
  {
  }

  lemma MulC(kp: real, q: real, i: real, r: real, d: real, e: real)
    ensures Mul(kp - q - i + r + d, e) == Mul(kp, e) - Mul(q, e) - Mul(i, e) + Mul(r, e) + Mul(d, e)
  {
  }

  lemma MulTwo(a: real, b: real, e: real)
    ensures Mul(a + b, e) == Mul(a, e) + Mul(b, e) && Mul(e, a + b) == Mul(e, a) + Mul(e, b)
  {
  }

  // The recurrence as a polynomial identity, with Ki Ts, Kd N and N Ts as unknowns.
  lemma Recurrence(kp: real, i: real, d: real, m: real, e: real, e1: real, e2: real, i2: real, d2: real)
    ensures Mul(2.0 - m, Mul(kp, e1) + (i2 + Mul(i, e2)) + (Mul(1.0 - m, d2) + Mul(d, e1 - e2))) +
            Mul(m - 1.0, Mul(kp, e2) + i2 + d2) +
            Mul(kp + d, e) +
            Mul(-2.0 * kp + Mul(m, kp) + i - 2.0 * d, e1) +
            Mul(kp - Mul(m, kp) - i + Mul(m, i) + d, e2)
            ==
            Mul(kp, e) + (i2 + Mul(i, e2) + Mul(i, e1)) +
            (Mul(1.0 - m, Mul(1.0 - m, d2) + Mul(d, e1 - e2)) + Mul(d, e - e1))
  {
    hide *;
    var a, a2, b, x, y := Mul(kp, e1), Mul(kp, e2), Mul(i, e2), Mul(1.0 - m, d2), Mul(d, e1 - e2);
    MulAround(m, a + (i2 + b) + (x + y));
    MulFive(m, a, i2, b, x, y);
    MulAround(m, a2 + i2 + d2);
    MulThree(m, a2, i2, d2);
    MulTwo(kp, d, e);
    MulB(kp, Mul(m, kp), i, d, e1);
    MulThrough(m, kp, e1);
    MulC(kp, Mul(m, kp), i, Mul(m, i), d, e2);
    MulThrough(m, kp, e2);
    MulThrough(m, i, e2);
    MulAround(m, x + y);
    MulTwo(x, y, m);
    MulAround(m, d2);
    MulDifference(d, e1, e2);
    MulDifference(d, e, e1);
  }

  lemma CoefficientProducts(k: Parameters, i: real, d: real, m: real)
    requires i == k.i * k.timestep && d == k.d * k.n && m == k.n * k.timestep
    ensures CoefficientsOf(k) ==
            Coefficients(k.p + d, -2.0 * k.p + Mul(m, k.p) + i - 2.0 * d, k.p - Mul(m, k.p) - i + Mul(m, i) + d,
                         2.0 - m, m - 1.0)
  {
    assert k.p * k.n * k.timestep == k.p * m;
    assert k.i * k.n * k.timestep * k.timestep == i * m;
    assert 2.0 * k.d * k.n == 2.0 * d;
  }

  lemma StepControl(k: Parameters, h: History, e: real, i2: real, d2: real)
    requires h.control == Mul(k.p, h.error) + (i2 + Mul(IntegralGain(k), h.errorT1)) +
                          (Mul(1.0 - Filter(k), d2) + Mul(DerivativeGain(k), h.error - h.errorT1))
    requires h.controlT1 == Mul(k.p, h.errorT1) + i2 + d2
    ensures Step(CoefficientsOf(k), h, e).control ==
            Mul(k.p, e) + (i2 + Mul(IntegralGain(k), h.errorT1) + Mul(IntegralGain(k), h.error)) +
            (Mul(1.0 - Filter(k), Mul(1.0 - Filter(k), d2) + Mul(DerivativeGain(k), h.error - h.errorT1)) +
             Mul(DerivativeGain(k), e - h.error))
  {
    hide *;
    Gains(k);
    CoefficientProducts(k, IntegralGain(k), DerivativeGain(k), Filter(k));
    StepIs(CoefficientsOf(k), h, e);
    Recurrence(k.p, IntegralGain(k), DerivativeGain(k), Filter(k), e, h.error, h.errorT1, i2, d2);
  }

  lemma Gains(k: Parameters)
    ensures IntegralGain(k) == k.i * k.timestep && DerivativeGain(k) == k.d * k.n && Filter(k) == k.n * k.timestep
  {
  }

  lemma StepIs(k: Coefficients, h: History, error: real)
    ensures Step(k, h, error) ==
      History(error, h.error, h.errorT1,
              Mul(k.d, h.control) + Mul(k.e, h.controlT1) + Mul(k.a, error) + Mul(k.b, h.error) + Mul(k.c, h.errorT1),
              h.control, h.controlT1)
  {
  }

  lemma IntegralNext(k: Parameters, errors: seq<real>)
    ensures Integral(k, errors) == Integral(k, Front(errors)) + Mul(IntegralGain(k), Last(Front(errors)))
  {
    MulIsProduct(IntegralGain(k), 0.0);
    hide IntegralGain, Mul;
  }

  lemma DerivativeNext(k: Parameters, errors: seq<real>)
    ensures Derivative(k, errors) == Mul(1.0 - Filter(k), Derivative(k, Front(errors))) +
                                     Mul(DerivativeGain(k), Last(errors) - Last(Front(errors)))
  {
    hide *;
    if errors == [] {
      NoErrors(k);
      MulZero(DerivativeGain(k));
      MulZero(1.0 - Filter(k));
    } else {
      DerivativeOf(k, errors);
    }
  }

  lemma NoErrors(k: Parameters)
    ensures Derivative(k, []) == 0.0 && Front([]) == [] && Last([]) == 0.0
  {
  }

  lemma DerivativeOf(k: Parameters, errors: seq<real>)
    requires errors != []
    ensures Derivative(k, errors) == Mul(1.0 - Filter(k), Derivative(k, Front(errors))) +
                                     Mul(DerivativeGain(k), Last(errors) - Last(Front(errors)))
  {
    hide Mul, Filter, DerivativeGain, Front, Last;
  }

  lemma MulZero(x: real)
    ensures Mul(x, 0.0) == 0.0
  {
  }

  lemma StepIsTextbook(k: Parameters, h: History, errors: seq<real>)
    requires errors != []
    requires h.control == Textbook(k, Front(errors)) && h.controlT1 == Textbook(k, Front(Front(errors)))
    requires h.error == Last(Front(errors)) && h.errorT1 == Last(Front(Front(errors)))
    ensures Step(CoefficientsOf(k), h, Last(errors)).control == Textbook(k, errors)
  {
    IntegralNext(k, Front(errors));
    IntegralNext(k, errors);
    DerivativeNext(k, Front(errors));
    DerivativeNext(k, errors);
    hide IntegralGain, DerivativeGain, Filter, Integral, Derivative, Last, Front, CoefficientsOf, Mul, Step;
    StepControl(k, h, Last(errors), Integral(k, Front(Front(errors))), Derivative(k, Front(Front(errors))));
  }

  // The recurrence computes the textbook controller for all parameters and errors.
  lemma {:induction false} RunIsTextbook(k: Parameters, errors: seq<real>)
    ensures var h := Run(k, errors);
            && h.control == Textbook(k, errors) && h.controlT1 == Textbook(k, Front(errors))
            && h.error == Last(errors) && h.errorT1 == Last(Front(errors))
    decreases |errors|
  {
    if errors == [] {
    } else {
      hide Textbook, CoefficientsOf;
      RunIsTextbook(k, Front(errors));
      StepIsTextbook(k, Run(k, Front(errors)), errors);
    }
  }

  lemma RunNext(k: Parameters, errors: seq<real>, e: real)
    ensures Run(k, errors + [e]) == Step(CoefficientsOf(k), Run(k, errors), e)
  {
    assert (errors + [e])[..|errors|] == errors;
    hide CoefficientsOf, Step;
  }

  // ---- stability ----

  function Abs(x: real): (r: real)
    ensures r >= 0.0 && r >= x && r >= -x
  {
    if x < 0.0 then -x else x
  }

  // With these laws of products the bounds are linear.

  lemma MulAbs(x: real, y: real)
    ensures Abs(Mul(x, y)) == Mul(Abs(x), Abs(y))
  {
  }

  lemma MulMonotone(x: real, y: real, z: real)
    requires x >= 0.0 && y <= z
    ensures Mul(x, y) <= Mul(x, z)
  {
  }

  lemma MulComplement(m: real, x: real)
    ensures Mul(1.0 - m, x) + Mul(m, x) == x
  {
  }

  lemma AbsSum(x: real, y: real)
    ensures Abs(x + y) <= Abs(x) + Abs(y)
  {
  }

  function SumAbs(errors: seq<real>): (r: real)
    ensures r >= 0.0
  {
    if errors == [] then 0.0 else SumAbs(Front(errors)) + Abs(Last(errors))
  }

  predicate Bounded(errors: seq<real>, bound: real) {
    bound >= 0.0 && forall e :: e in errors ==> Abs(e) <= bound
  }

  lemma BoundedFront(errors: seq<real>, bound: real)
    requires Bounded(errors, bound)
    ensures Bounded(Front(errors), bound) && Abs(Last(errors)) <= bound && Abs(Last(Front(errors))) <= bound
  {
  }

  lemma {:induction false} IntegralBound(k: Parameters, errors: seq<real>)
    ensures Abs(Integral(k, errors)) <= Mul(Abs(IntegralGain(k)), SumAbs(Front(errors)))
    decreases |errors|
  {
    if errors == [] {
      assert Mul(Abs(IntegralGain(k)), 0.0) == 0.0;
    } else {
      IntegralBound(k, Front(errors));
      IntegralNext(k, errors);
      if Front(errors) == [] {
      } else {
        IntegralStep(k, errors);
      }
    }
  }

  lemma IntegralStep(k: Parameters, errors: seq<real>)
    requires errors != [] && Front(errors) != []
    requires Abs(Integral(k, Front(errors))) <= Mul(Abs(IntegralGain(k)), SumAbs(Front(Front(errors))))
    requires Integral(k, errors) == Integral(k, Front(errors)) + Mul(IntegralGain(k), Last(Front(errors)))
    ensures Abs(Integral(k, errors)) <= Mul(Abs(IntegralGain(k)), SumAbs(Front(errors)))
  {
    var before := Front(errors);
    var gain, last := IntegralGain(k), Last(before);
    hide Mul, IntegralGain, Integral, Last, Front, Abs;
    AbsSum(Integral(k, before), Mul(gain, last));
    MulAbs(gain, last);
    MulTwo(SumAbs(Front(before)), Abs(last), Abs(gain));
  }

  // With a stable filter the derivative term stays within 2 |Kd| E / |Ts|.
  lemma {:induction false} DerivativeBound(k: Parameters, errors: seq<real>, bound: real, limit: real)
    requires 0.0 < Filter(k) <= 1.0 && Bounded(errors, bound)
    requires Mul(Filter(k), limit) == Mul(Abs(DerivativeGain(k)), 2.0 * bound) && limit >= 0.0
    ensures Abs(Derivative(k, errors)) <= limit
    decreases |errors|
  {
    hide Mul, Filter, DerivativeGain, Bounded;
    if errors == [] {
    } else {
      BoundedFront(errors, bound);
      DerivativeBound(k, Front(errors), bound, limit);
      DerivativeNext(k, errors);
      hide Abs, Derivative, Front, Last;
      FilterStep(Filter(k), Derivative(k, Front(errors)), DerivativeGain(k),
                 Last(errors) - Last(Front(errors)), bound, limit);
    }
  }

  lemma FilterStep(m: real, previous: real, d: real, difference: real, bound: real, limit: real)
    requires 0.0 < m <= 1.0 && Abs(previous) <= limit && Abs(difference) <= 2.0 * bound
    requires Mul(m, limit) == Mul(Abs(d), 2.0 * bound)
    ensures Abs(Mul(1.0 - m, previous) + Mul(d, difference)) <= limit
  {
    assert Abs(1.0 - m) == 1.0 - m;
    hide Mul, Abs;
    AbsSum(Mul(1.0 - m, previous), Mul(d, difference));
    MulAbs(1.0 - m, previous);
    MulAbs(d, difference);
    MulMonotone(1.0 - m, Abs(previous), limit);
    MulMonotone(Abs(d), Abs(difference), 2.0 * bound);
    MulComplement(m, limit);
  }

  // 2 |Kd| E / |Ts|
  function DerivativeLimit(k: Parameters, bound: real): real
    requires k.timestep != 0.0
  {
    2.0 * Abs(k.d) * bound / Abs(k.timestep)
  }

  lemma Quotient(n: real, t: real, d: real, bound: real)
    requires n >= 0.0 && t > 0.0 && d >= 0.0 && bound >= 0.0
    ensures 2.0 * d * bound / t >= 0.0
    ensures (n * t) * (2.0 * d * bound / t) == (d * n) * (2.0 * bound)
  {
    var x := 2.0 * d * bound / t;
    assert x * t == 2.0 * d * bound;
    assert d * bound >= 0.0;
    assert (n * t) * x == n * (x * t);
  }

  lemma TextbookBound(k: Parameters, errors: seq<real>, bound: real)
    requires 0.0 < Filter(k) <= 1.0 && Bounded(errors, bound)
    ensures k.timestep != 0.0
    ensures Abs(Textbook(k, errors)) <=
            Mul(Abs(k.p), bound) + Mul(Abs(IntegralGain(k)), SumAbs(Front(errors))) + DerivativeLimit(k, bound)
  {
    assert k.timestep != 0.0 && DerivativeLimit(k, bound) >= 0.0;
    assert Mul(Filter(k), DerivativeLimit(k, bound)) == Mul(Abs(DerivativeGain(k)), 2.0 * bound);
    hide Mul, DerivativeLimit, IntegralGain, DerivativeGain;
    IntegralBound(k, errors);
    DerivativeBound(k, errors, bound, DerivativeLimit(k, bound));
    BoundedFront(errors, bound);
    hide Filter, Integral, Derivative, Abs, SumAbs, Last, Front;
    MulAbs(k.p, Last(errors));
    MulMonotone(Abs(k.p), Abs(Last(errors)), bound);
  }

  // |Kp| E + |Ki Ts| sum of |e_j| before the current step + 2 |Kd| E / |Ts|
  function ControlBound(k: Parameters, errors: seq<real>, bound: real): real
    requires k.timestep != 0.0
  {
    Abs(k.p) * bound + Abs(IntegralGain(k)) * SumAbs(Front(errors)) + DerivativeLimit(k, bound)
  }

  // Bounded errors give a control bounded by the error, its accumulated sum and the derivative
  // term's limit.
  lemma StabilityBound(k: Parameters, errors: seq<real>, bound: real)
    requires 0.0 < Filter(k) <= 1.0 && Bounded(errors, bound)
    ensures k.timestep != 0.0
    ensures Abs(Run(k, errors).control) <= ControlBound(k, errors, bound)
  {
    hide Run, Textbook, Abs, SumAbs, Front, DerivativeLimit, Mul, IntegralGain, Filter, Bounded, Last;
    TextbookBound(k, errors, bound);
    RunIsTextbook(k, errors);
    MulIsProduct(Abs(k.p), bound);
    MulIsProduct(Abs(IntegralGain(k)), SumAbs(Front(errors)));
  }

  // ---- freeze and thaw ----

  const THAW_STEP := 50.0

  // One call of get_offset.
  function NextOffset(offset: real, frozen: bool): real {
    if Abs(offset) > 0.0 && !frozen then
      if Abs(offset) < THAW_STEP + 1.0 then 0.0
      else if offset > 0.0 then offset - THAW_STEP
      else offset + THAW_STEP
    else offset
  }

  function OffsetAfter(offset: real, frozen: bool, calls: nat): real
    decreases calls
  {
    if calls == 0 then offset else OffsetAfter(NextOffset(offset, frozen), frozen, calls - 1)
  }

  function CallsToZero(offset: real): nat {
    if offset == 0.0 then 0
    else if Abs(offset) < 51.0 then 1
    else ((Abs(offset) - 51.0) / 50.0).Floor + 2
  }

  // Frozen, the offset stays; thawed, it keeps its sign, never grows, and is 0 after exactly
  // that many calls and not before.
  lemma {:induction false} ThawRamp(offset: real, frozen: bool, calls: nat)
    ensures frozen ==> OffsetAfter(offset, frozen, calls) == offset
    ensures var r := OffsetAfter(offset, frozen, calls);
            Abs(r) <= Abs(offset) && (offset >= 0.0 ==> r >= 0.0) && (offset <= 0.0 ==> r <= 0.0)
    ensures !frozen ==> (OffsetAfter(offset, frozen, calls) == 0.0 <==> calls >= CallsToZero(offset))
    decreases calls
  {
    if calls == 0 {
    } else {
      var next := NextOffset(offset, frozen);
      ThawRamp(next, frozen, calls - 1);
    }
  }

  /** Thawed, each call before the last takes exactly 50 off the offset's size, and the last the rest. */
  lemma {:induction false} RampIs(offset: real, calls: nat)
    ensures OffsetAfter(offset, false, calls)
         == if calls >= CallsToZero(offset) then 0.0
            else if offset > 0.0 then offset - 50.0 * (calls as real)
            else offset + 50.0 * (calls as real)
    decreases calls
  {
    if calls == 0 {
    } else if offset == 0.0 {
      RampIs(0.0, calls - 1);
    } else {
      RampIs(NextOffset(offset, false), calls - 1);
    }
  }

  // ---- the class ----

  class PID {
    var initialParameters: Parameters
    var currentParameters: Parameters
    var calculated: Coefficients
    var error: real
    var errorT1: real
    var errorT2: real
    var control: real
    var controlT1: real
    var controlT2: real
    var frozen: bool
    var offset: real
    ghost var errors: seq<real>  // all errors since the last reset

    ghost predicate Valid()
      reads this
    {
      && calculated == CoefficientsOf(currentParameters)
      && History(error, errorT1, errorT2, control, controlT1, controlT2) == Run(currentParameters, errors)
    }

    constructor (parameters: Parameters)
      ensures Valid() && initialParameters == currentParameters == parameters && errors == []
      ensures !frozen && offset == 0.0
    {
      initialParameters := parameters;
      frozen, offset := false, 0.0;
      new;
      UpdateParameters(parameters);
    }

    // New parameters start from reset values; freezing is not affected.
    method UpdateParameters(parameters: Parameters)
      modifies this
      ensures Valid() && currentParameters == parameters && errors == []
      ensures initialParameters == old(initialParameters) && frozen == old(frozen) && offset == old(offset)
    {
      currentParameters := parameters;
      CalculateIntermediateValues();
    }

    method RestoreInitialParameters()
      modifies this
      ensures Valid() && currentParameters == initialParameters == old(initialParameters) && errors == []
      ensures frozen == old(frozen) && offset == old(offset)
    {
      UpdateParameters(initialParameters);
    }

    method CalculateIntermediateValues()
      modifies this
      ensures Valid() && currentParameters == old(currentParameters) && errors == []
      ensures initialParameters == old(initialParameters) && frozen == old(frozen) && offset == old(offset)
    {
      calculated := CoefficientsOf(currentParameters);
      ResetPreviousValues();
    }

    method ResetPreviousValues()
      requires calculated == CoefficientsOf(currentParameters)
      modifies this`error, this`errorT1, this`errorT2, this`control, this`controlT1, this`controlT2, this`errors
      ensures Valid() && errors == []
    {
      errorT2, errorT1, error := 0.0, 0.0, 0.0;
      controlT2, controlT1, control := 0.0, 0.0, 0.0;
      errors := [];
    }

    // The output is the textbook controller's, shifted by the offset.
    method Process(setpoint: real, measurement: real) returns (output: real)
      requires Valid()
      modifies this
      ensures Valid() && errors == old(errors) + [setpoint - measurement]
      ensures offset == NextOffset(old(offset), frozen)
      ensures output == Textbook(currentParameters, errors) + offset
      ensures control == Textbook(currentParameters, errors)
      ensures frozen == old(frozen) && currentParameters == old(currentParameters)
      ensures initialParameters == old(initialParameters)
    {
      hide CoefficientsOf, Textbook, Run, Step, Mul, NextOffset, Front, Last;
      StepIs(calculated, History(error, errorT1, errorT2, control, controlT1, controlT2), setpoint - measurement);
      RunNext(currentParameters, errors, setpoint - measurement);
      errorT2 := errorT1;
      errorT1 := error;
      error := setpoint - measurement;
      controlT2 := controlT1;
      controlT1 := control;
      control := Mul(calculated.d, controlT1) + Mul(calculated.e, controlT2) + Mul(calculated.a, error) +
                 Mul(calculated.b, errorT1) + Mul(calculated.c, errorT2);
      errors := errors + [error];
      RunIsTextbook(currentParameters, errors);
      var unused;
      output, unused := GetOffset(None);
      output := control + output;
    }

    method Freeze()
      modifies this`offset, this`frozen
      ensures frozen && offset == control
    {
      offset := control;
      frozen := true;
    }

    method Thaw()
      modifies this`frozen
      ensures !frozen
    {
      frozen := false;
    }

    // The caller's flag before and after: None when no flag is passed. It is only ever set.
    method GetOffset(flag: Option<bool>) returns (value: real, changed: Option<bool>)
      modifies this`offset
      ensures value == offset == NextOffset(old(offset), frozen)
      ensures changed == if flag != None && !frozen && old(offset) != 0.0 then Some(true) else flag
    {
      changed := flag;
      if Abs(offset) > 0.0 && !frozen {
        if Abs(offset) < THAW_STEP + 1.0 {
          offset := 0.0;
        } else {
          offset := offset - (if offset > 0.0 then THAW_STEP else -THAW_STEP);
        }
        if flag != None {
          changed := Some(true);
        }
      }
      value := offset;
    }
  }
}

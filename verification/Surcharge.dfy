/** The reuse surcharge of api_server/facilitator_policy.py. */
module Surcharge {
  import opened Wrappers
  import opened Arithmetic

  datatype Policy = Policy(T: int, NSoft: int, m: real, NMax: int)

  const DEFAULT := Policy(3, 5, 1.5, 10)

  datatype Method = FirstFree | SurchargeApplied | SurchargeEscalated

  datatype Decision = Decision(method_: Method, surcharge: real, alert: bool)

  datatype ValueError = ValueError

  predicate ValidPolicy(p: Policy) {
    1 <= p.T <= p.NSoft <= p.NMax && p.m >= 0.0
  }

  /** The n-th call in an hour, with its own gas estimate and the median one. */
  function Evaluate(n: int, est: real, p50: real, p: Policy): Result<Decision, ValueError> {
    if n < 0 || p.T < 1 || p.NSoft < p.T || p.NMax < p.NSoft || p.m < 0.0 || est < 0.0 || p50 < 0.0 then
      Failure(ValueError)
    else
      var alert := n > p.NMax;
      if n < p.T then Success(Decision(FirstFree, 0.0, alert))
      else if n <= p.NSoft then Success(Decision(SurchargeApplied, p.m * est, alert))
      else Success(Decision(SurchargeEscalated, p.m * p50 * ((n - p.T + 1) as real), alert))
  }

  predicate ValidCall(est: real, p50: real, p: Policy) {
    ValidPolicy(p) && est >= 0.0 && p50 >= 0.0
  }

  function Fee(n: nat, est: real, p50: real, p: Policy): real
    requires ValidCall(est, p50, p)
  {
    Evaluate(n, est, p50, p).value.surcharge
  }

  /** A call is refused exactly when its number, a gas estimate or the policy is out of range; and
      else the tier says what is charged: nothing before the first threshold, a share of the call's
      own gas up to the second, and beyond it a share of the median gas for every step above the first. */
  lemma TiersCharge(n: int, est: real, p50: real, p: Policy)
    ensures Evaluate(n, est, p50, p).Failure? <==>
              n < 0 || !(1 <= p.T <= p.NSoft <= p.NMax) || p.m < 0.0 || est < 0.0 || p50 < 0.0
    ensures Evaluate(n, est, p50, p).Success? ==>
              var d := Evaluate(n, est, p50, p).value;
              && (d.method_ == FirstFree <==> n < p.T) && (d.method_ == SurchargeEscalated <==> n > p.NSoft)
              && (d.method_ == FirstFree ==> d.surcharge == 0.0)
              && (d.method_ == SurchargeApplied ==> d.surcharge == p.m * est)
              && (d.method_ == SurchargeEscalated ==> d.surcharge == p.m * p50 * ((n - p.T + 1) as real))
  {
  }

  /** The default tiers. */
  lemma DefaultTiers(n: nat, est: real, p50: real)
    requires est >= 0.0 && p50 >= 0.0
    ensures var d := Evaluate(n, est, p50, DEFAULT).value;
      && d.method_ == (if n < 3 then FirstFree else if n <= 5 then SurchargeApplied else SurchargeEscalated)
      && (d.alert <==> n > 10)
  {
  }

  // ----- monotonicity -----

  /** The fee never falls from one call to the next exactly when the soft tier is not dearer
      than the first escalated call. */
  lemma FeeMonotoneIff(est: real, p50: real, p: Policy)
    requires ValidCall(est, p50, p)
    ensures (forall n: nat :: Fee(n, est, p50, p) <= Fee(n + 1, est, p50, p))
       <==> p.m == 0.0 || est <= p50 * ((p.NSoft - p.T + 2) as real)
  {
    var k := (p.NSoft - p.T + 2) as real;
    if p.m == 0.0 || est <= p50 * k {
      forall n: nat ensures Fee(n, est, p50, p) <= Fee(n + 1, est, p50, p) {
        FeeStep(n, est, p50, p);
      }
    } else {
      assert p.m * est > p.m * (p50 * k);
      assert Fee(p.NSoft, est, p50, p) == p.m * est;
      assert Fee(p.NSoft + 1, est, p50, p) == p.m * p50 * k;
      assert p.m * p50 * k == p.m * (p50 * k);
    }
  }

  lemma FeeStep(n: nat, est: real, p50: real, p: Policy)
    requires ValidCall(est, p50, p)
    requires p.m == 0.0 || est <= p50 * ((p.NSoft - p.T + 2) as real)
    ensures Fee(n, est, p50, p) <= Fee(n + 1, est, p50, p)
  {
    if n + 1 > p.NSoft && p.m > 0.0 {
      var k := (n + 1 - p.T + 1) as real;
      if n > p.NSoft {
        MulMono(p.m * p50, k - 1.0, k);
      } else if n >= p.T {
        MulMono(p.m, est, p50 * k);
        Associate(p.m, p50, k);
      } else {
        MulMono(p.m * p50, 0.0, k);
      }
    }
  }

  // ----- cumulative fee -----

  /** What the calls 1 .. N pay together. */
  function Total(N: nat, est: real, p50: real, p: Policy): real
    requires ValidCall(est, p50, p)
  {
    if N == 0 then 0.0 else Total(N - 1, est, p50, p) + Fee(N, est, p50, p)
  }

  function Triangle(k: int): int { k * (k + 1) / 2 }

  lemma TriangleStep(k: int)
    ensures Triangle(k) == Triangle(k - 1) + k
  {
    assert k * (k + 1) == (k - 1) * k + 2 * k;
  }

  /** How many of the calls 1 .. N fall into the soft tier, and the steps the later ones climb. */
  function SoftCalls(N: nat, p: Policy): int {
    if N < p.T then 0 else if N <= p.NSoft then N - p.T + 1 else p.NSoft - p.T + 1
  }

  function EscalatedSteps(N: nat, p: Policy): int {
    if N <= p.NSoft then 0 else Triangle(N - p.T + 1) - Triangle(p.NSoft - p.T + 1)
  }

  // The tier counts when one more call is made.
  lemma CountsStep(N: nat, p: Policy)
    requires ValidPolicy(p) && N > 0
    ensures SoftCalls(N, p) == SoftCalls(N - 1, p) + (if p.T <= N <= p.NSoft then 1 else 0)
    ensures EscalatedSteps(N, p) == EscalatedSteps(N - 1, p) + (if N > p.NSoft then N - p.T + 1 else 0)
  {
    TriangleStep(N - p.T + 1);
    hide Triangle;
  }

  function TwoTier(soft: real, steps: real, s: int, e: int): real {
    soft * (s as real) + steps * (e as real)
  }

  lemma TwoTierGrows(soft: real, steps: real, s: int, e: int, ds: int, de: int)
    ensures TwoTier(soft, steps, s + ds, e + de) == TwoTier(soft, steps, s, e) + soft * (ds as real) + steps * (de as real)
  {
    Distribute(soft, s as real, ds as real);
    Distribute(steps, e as real, de as real);
  }

  /** The closed form: linear in the soft tier, quadratic beyond it. */
  lemma {:induction false} TotalClosedForm(N: nat, est: real, p50: real, p: Policy)
    requires ValidCall(est, p50, p)
    ensures Total(N, est, p50, p) == TwoTier(p.m * est, p.m * p50, SoftCalls(N, p), EscalatedSteps(N, p))
  {
    hide Triangle, TwoTier, SoftCalls, EscalatedSteps;
    if N == 0 {
      ZeroCalls(est, p50, p);
    } else {
      TotalClosedForm(N - 1, est, p50, p);
      CountsStep(N, p);
      TwoTierGrows(p.m * est, p.m * p50, SoftCalls(N - 1, p), EscalatedSteps(N - 1, p),
                   if p.T <= N <= p.NSoft then 1 else 0, if N > p.NSoft then N - p.T + 1 else 0);
    }
  }

  lemma ZeroCalls(est: real, p50: real, p: Policy)
    requires ValidPolicy(p)
    ensures TwoTier(p.m * est, p.m * p50, SoftCalls(0, p), EscalatedSteps(0, p)) == 0.0
  {
  }

  // ----- the defaults -----

  // What N calls pay under the defaults, in units of the gas price.
  function Units(N: nat): real {
    1.5 * (SoftCalls(N, DEFAULT) as real) + 1.5 * (EscalatedSteps(N, DEFAULT) as real)
  }

  lemma TotalInUnits(N: nat, gas: real)
    requires gas >= 0.0
    ensures Total(N, gas, gas, DEFAULT) == gas * Units(N)
  {
    var s, e := SoftCalls(N, DEFAULT), EscalatedSteps(N, DEFAULT);
    hide Total, SoftCalls, EscalatedSteps, TwoTier;
    assert DEFAULT.m * gas == 1.5 * gas;
    TotalClosedForm(N, gas, gas, DEFAULT);
    GasUnits(gas, s, e);
  }

  lemma GasUnits(gas: real, s: int, e: int)
    ensures TwoTier(1.5 * gas, 1.5 * gas, s, e) == gas * (1.5 * (s as real) + 1.5 * (e as real))
  {
    var x, y := s as real, e as real;
    Associate(gas, 1.5, x);
    Associate(gas, 1.5, y);
    Distribute(gas, 1.5 * x, 1.5 * y);
  }

  /** With the default tiers and one gas price, the surcharges cover the gas of N calls
      exactly from the sixth call on. */
  lemma DefaultBreaksEvenAtSix(N: nat, gas: real)
    requires N >= 1 && gas > 0.0
    ensures Total(N, gas, gas, DEFAULT) < gas * (N as real) <==> N <= 5
  {
    TotalInUnits(N, gas);
    UnitsAgainstCalls(N);
    assert Units(N) < N as real <==> N <= 5;
    hide Total, Units;
    if N <= 5 {
      MulStrict(gas, Units(N), N as real);
    } else {
      MulMono(gas, N as real, Units(N));
    }
  }

  /** In units of the gas price: what N calls pay against what they burn. */
  lemma {:induction false} UnitsAgainstCalls(N: nat)
    requires N >= 1
    ensures 3 * SoftCalls(N, DEFAULT) + 3 * EscalatedSteps(N, DEFAULT) < 2 * N <==> N <= 5
  {
    if N > 6 {
      UnitsAgainstCalls(N - 1);
      CountsStep(N, DEFAULT);
    } else {
      assert Triangle(3) == 6 && Triangle(4) == 10;
    }
  }

  /** The alert flag never touches the fee, and nothing is ever refused: every call with
      valid arguments gets a fee. */
  lemma AlertIsOnlyAFlag(n: nat, est: real, p50: real, p: Policy, NMax: int)
    requires ValidCall(est, p50, p) && NMax >= p.NSoft
    ensures Evaluate(n, est, p50, p).Success?
    ensures Evaluate(n, est, p50, p.(NMax := NMax)).value.(alert := false) == Evaluate(n, est, p50, p).value.(alert := false)
    ensures Evaluate(n, est, p50, p).value.alert <==> n > p.NMax
  {
  }
}

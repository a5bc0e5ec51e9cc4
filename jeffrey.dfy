/** The discounted Jeffrey update of agents/updaters/jeffreyupdater.py (and
    its copy in sim/scientist.py), over exact reals.

    Two hypotheses are compared: H, the success rate of the better theory is
    p = 0.5 + epsilon, and not-H, it is 1 - p.  An agent with credence c in H
    sees k successes in n trials reported by an influencer, forms the Bayes
    posterior P(H|E), and moves towards it only as far as its distrust of the
    influencer, dm = |c - c'| * m, allows. */
module Jeffrey {
  import opened Experiments

  // ---------------------------------------------------------------------
  // Arithmetic helpers
  // ---------------------------------------------------------------------

  /** `x ** e` for a natural exponent. */
  function Pow(x: real, e: nat): real
  {
    if e == 0 then 1.0 else x * Pow(x, e - 1)
  }

  function Abs(x: real): real
  {
    if x < 0.0 then -x else x
  }

  function Min(a: real, b: real): real
  {
    if a <= b then a else b
  }

  predicate InUnit(x: real)
  {
    0.0 <= x <= 1.0
  }

  /** An epsilon for which both hypotheses are proper success rates. */
  predicate ValidEpsilon(epsilon: real)
  {
    -0.5 < epsilon < 0.5
  }

  /** The success rate under H: `p = 0.5 + self.epsilon`. */
  function SuccessRate(epsilon: real): (p: real)
    requires ValidEpsilon(epsilon)
    ensures 0.0 < p < 1.0
  {
    0.5 + epsilon
  }

  lemma MulPositive(x: real, y: real)
    requires x > 0.0 && y > 0.0
    ensures x * y > 0.0
  {
  }

  lemma MulNonNegative(x: real, y: real)
    requires x >= 0.0 && y >= 0.0
    ensures x * y >= 0.0
  {
  }

  /** A part of a positive whole is a fraction in [0, 1]. */
  lemma FractionInUnit(x: real, d: real)
    requires 0.0 <= x <= d && d > 0.0
    ensures InUnit(x / d)
  {
    var q := x / d;
    assert q * d == x;
    if q > 1.0 {
      MulPositive(q - 1.0, d);
    }
    if q < 0.0 {
      MulPositive(-q, d);
    }
  }

  /** A step r of length t in [0, 1] from one probability c towards another
      b ends between them, and moves (in b's direction) exactly when t > 0
      and b differs from c. */
  lemma PartialStep(c: real, b: real, t: real, r: real)
    requires InUnit(c) && InUnit(b) && 0.0 <= t <= 1.0
    requires r == c + t * (b - c)
    ensures && InUnit(r)
            && (c <= b ==> c <= r <= b)
            && (b <= c ==> b <= r <= c)
            && (r > c ==> b > c) && (r < c ==> b < c)
            && (t > 0.0 ==> (b > c ==> r > c) && (b < c ==> r < c))
  {
    if c <= b {
      StepUp(c, b, t, r);
    } else {
      StepUp(-c, -b, t, -r);
    }
  }

  /** `PartialStep` for c <= b; the case b < c is its mirror image. */
  lemma StepUp(c: real, b: real, t: real, r: real)
    requires 0.0 <= t <= 1.0 && c <= b && r == c + t * (b - c)
    ensures c <= r <= b && (t > 0.0 && b > c ==> r > c)
  {
    MulNonNegative(t, b - c);
    StepBelowTarget(c, b, t, r);
    if t > 0.0 && b > c {
      StepMoves(c, b, t, r);
    }
  }

  lemma StepBelowTarget(c: real, b: real, t: real, r: real)
    requires t <= 1.0 && c <= b && r == c + t * (b - c)
    ensures r <= b
  {
    MulNonNegative(1.0 - t, b - c);
  }

  lemma StepMoves(c: real, b: real, t: real, r: real)
    requires 0.0 < t && c < b && r == c + t * (b - c)
    ensures c < r
  {
    MulPositive(t, b - c);
  }

  lemma {:induction false} PowPositive(x: real, e: nat)
    requires x > 0.0
    ensures Pow(x, e) > 0.0
  {
    if e > 0 {
      PowPositive(x, e - 1);
    }
  }

  lemma {:induction false} PowUnit(x: real, e: nat)
    requires InUnit(x)
    ensures InUnit(Pow(x, e))
  {
    if e > 0 {
      var rest := Pow(x, e - 1);
      PowUnit(x, e - 1);
      MulNonNegative(x, rest);
      MulAtMost(x, 1.0, rest);
      assert Pow(x, e) == x * rest;
      assert InUnit(rest);
      assert x * rest <= 1.0 * rest;
      assert 0.0 <= x * rest <= 1.0;
    }
  }

  lemma {:induction false} PowBelowOne(x: real, e: nat)
    requires 0.0 <= x < 1.0 && e >= 1
    ensures Pow(x, e) < 1.0
  {
    PowUnit(x, e - 1);
    assert x * Pow(x, e - 1) <= x * 1.0;
  }

  lemma {:induction false} PowAdd(x: real, a: nat, b: nat)
    ensures Pow(x, a + b) == Pow(x, a) * Pow(x, b)
  {
    if a > 0 {
      PowAdd(x, a - 1, b);
      assert Pow(x, a + b) == x * Pow(x, a - 1 + b);
    }
  }

  lemma MulAtMost(a: real, b: real, c: real)
    requires a <= b && c >= 0.0
    ensures a * c <= b * c
  {
  }

  lemma MulLess(a: real, b: real, c: real)
    requires a < b && c > 0.0
    ensures a * c < b * c
  {
    MulPositive(b - a, c);
  }

  lemma {:induction false} PowMonotone(x: real, y: real, e: nat)
    requires 0.0 < y < x && e >= 1
    ensures Pow(y, e) < Pow(x, e)
  {
    if e > 1 {
      var py, px := Pow(y, e - 1), Pow(x, e - 1);
      PowMonotone(x, y, e - 1);
      PowPositive(y, e - 1);
      MulLess(y, x, py);
      MulLess(py, px, x);
      assert y * py < x * px;
    } else {
      assert Pow(y, e) == y && Pow(x, e) == x;
    }
  }

  // ---------------------------------------------------------------------
  // Likelihoods and marginal (jeffreyupdater.py:64-92)
  // ---------------------------------------------------------------------

  /** P(E|H) without the binomial coefficient: `p ** k * (1 - p) ** (n - k)`. */
  function TruncatedLikelihood(k: nat, n: nat, p: real): real
    requires k <= n
  {
    Pow(p, k) * Pow(1.0 - p, n - k)
  }

  /** P(E|not-H) without the binomial coefficient: `(1-p) ** k * p ** (n - k)`. */
  function TruncatedPENotH(k: nat, n: nat, p: real): real
    requires k <= n
  {
    Pow(1.0 - p, k) * Pow(p, n - k)
  }

  /** P(E) = prior * P(E|H) + (1 - prior) * P(E|not-H). */
  function MarginalLikelihood(prior: real, pEH: real, pEnH: real): real
  {
    prior * pEH + (1.0 - prior) * pEnH
  }

  /** Swapping successes and failures swaps the two hypotheses' likelihoods. */
  lemma LikelihoodSwap(k: nat, n: nat, p: real)
    requires k <= n
    ensures TruncatedLikelihood(n - k, n, p) == TruncatedPENotH(k, n, p)
    ensures TruncatedPENotH(n - k, n, p) == TruncatedLikelihood(k, n, p)
  {
  }

  /** Each truncated likelihood is a probability strictly inside (0, 1)
      once there is at least one trial. */
  lemma {:induction false} LikelihoodsInside(k: nat, n: nat, p: real)
    requires k <= n && n >= 1 && 0.0 < p < 1.0
    ensures 0.0 < TruncatedLikelihood(k, n, p) < 1.0
    ensures 0.0 < TruncatedPENotH(k, n, p) < 1.0
  {
    var q := 1.0 - p;
    PowPositive(p, k); PowPositive(q, n - k);
    PowPositive(q, k); PowPositive(p, n - k);
    PowUnit(p, k); PowUnit(q, n - k);
    PowUnit(q, k); PowUnit(p, n - k);
    if k >= 1 {
      PowBelowOne(p, k); PowBelowOne(q, k);
      assert Pow(p, k) * Pow(q, n - k) <= Pow(p, k) * 1.0;
      assert Pow(q, k) * Pow(p, n - k) <= Pow(q, k) * 1.0;
    } else {
      PowBelowOne(q, n - k); PowBelowOne(p, n - k);
      assert Pow(p, k) * Pow(q, n - k) <= 1.0 * Pow(q, n - k);
      assert Pow(q, k) * Pow(p, n - k) <= 1.0 * Pow(p, n - k);
    }
  }

  /** A convex combination of two numbers in (0, 1) stays in (0, 1). */
  lemma MarginalOfInside(c: real, a: real, b: real)
    requires InUnit(c) && 0.0 < a < 1.0 && 0.0 < b < 1.0
    ensures 0.0 < MarginalLikelihood(c, a, b) < 1.0
  {
    assert 1.0 - MarginalLikelihood(c, a, b) == c * (1.0 - a) + (1.0 - c) * (1.0 - b);
    MulNonNegative(c, a); MulNonNegative(1.0 - c, b);
    MulNonNegative(c, 1.0 - a); MulNonNegative(1.0 - c, 1.0 - b);
    if c > 0.0 {
      MulPositive(c, a); MulPositive(c, 1.0 - a);
    } else {
      MulPositive(1.0 - c, b); MulPositive(1.0 - c, 1.0 - b);
    }
  }

  /** The marginal P(E) lies strictly in (0, 1) whenever there is at least one
      trial, so both divisions of jeffreyupdater.py:42-43 are defined. */
  lemma MarginalInside(c: real, k: nat, n: nat, p: real)
    requires InUnit(c) && k <= n && n >= 1 && 0.0 < p < 1.0
    ensures 0.0 < MarginalLikelihood(c, TruncatedLikelihood(k, n, p), TruncatedPENotH(k, n, p)) < 1.0
  {
    LikelihoodsInside(k, n, p);
    MarginalOfInside(c, TruncatedLikelihood(k, n, p), TruncatedPENotH(k, n, p));
  }

  /** With no trials both likelihoods are 1, so P(E) = 1 and the division by
      `1 - p_E` at jeffreyupdater.py:43 is by zero: the source raises. */
  lemma NoTrialsMarginalIsOne(c: real, p: real)
    ensures TruncatedLikelihood(0, 0, p) == 1.0 && TruncatedPENotH(0, 0, p) == 1.0
    ensures 1.0 - MarginalLikelihood(c, TruncatedLikelihood(0, 0, p), TruncatedPENotH(0, 0, p)) == 0.0
  {
  }

  // ---------------------------------------------------------------------
  // Trust discount and posterior (jeffreyupdater.py:28-62)
  // ---------------------------------------------------------------------

  /** `dm`: distance between the two credences, scaled by the distrust
      multiplier m. */
  function Dm(credence: real, other: real, m: real): (r: real)
    ensures m >= 0.0 ==> r >= 0.0
    ensures credence == other ==> r == 0.0
  {
    Abs(credence - other) * m
  }

  /** `_jeffrey_calculate_posterior`: mix the two posteriors; a prior of
      zero (or less) gives zero. */
  function CalculatePosterior(prior: real, pHE: real, posteriorPE: real, pHnE: real): real
  {
    if prior > 0.0 then pHE * posteriorPE + pHnE * (1.0 - posteriorPE) else 0.0
  }

  /** A pair of likelihoods whose marginal is a proper probability. */
  predicate Admissible(c: real, pEH: real, pEnH: real)
  {
    InUnit(c) && 0.0 <= pEH <= 1.0 && 0.0 < MarginalLikelihood(c, pEH, pEnH) < 1.0
  }

  /** P(H|E) = c * P(E|H) / P(E). */
  function PosteriorOnEvidence(c: real, pEH: real, pEnH: real): real
    requires Admissible(c, pEH, pEnH)
  {
    c * pEH / MarginalLikelihood(c, pEH, pEnH)
  }

  /** P(H|not-E) = c * (1 - P(E|H)) / (1 - P(E)). */
  function PosteriorOnNoEvidence(c: real, pEH: real, pEnH: real): real
    requires Admissible(c, pEH, pEnH)
  {
    c * (1.0 - pEH) / (1.0 - MarginalLikelihood(c, pEH, pEnH))
  }

  /** Lines 41-47 of `_jeffrey_update_credence_on_influencer`, for given
      likelihoods and discount: the discounted marginal
      `posterior_p_E = 1 - min(1, dm) * (1 - p_E)` weights the two posteriors. */
  function JeffreyPosterior(c: real, pEH: real, pEnH: real, dm: real): real
    requires Admissible(c, pEH, pEnH)
  {
    var pE := MarginalLikelihood(c, pEH, pEnH);
    var posteriorPE := 1.0 - Min(1.0, dm) * (1.0 - pE);
    CalculatePosterior(c, PosteriorOnEvidence(c, pEH, pEnH), posteriorPE, PosteriorOnNoEvidence(c, pEH, pEnH))
  }

  /** The discounted Jeffrey update is a partial step from the prior towards
      the Bayes posterior: c + (1 - min(1, dm)) * (P(H|E) - c). */
  lemma JeffreyClosedForm(c: real, pEH: real, pEnH: real, dm: real)
    requires Admissible(c, pEH, pEnH)
    ensures JeffreyPosterior(c, pEH, pEnH, dm)
         == c + (1.0 - Min(1.0, dm)) * (PosteriorOnEvidence(c, pEH, pEnH) - c)
  {
    if c > 0.0 {
      var pE := MarginalLikelihood(c, pEH, pEnH);
      var w := Min(1.0, dm);
      var a := PosteriorOnEvidence(c, pEH, pEnH);
      var b := PosteriorOnNoEvidence(c, pEH, pEnH);
      assert a * pE == c * pEH;
      assert b * (1.0 - pE) == c * (1.0 - pEH);
      calc {
        JeffreyPosterior(c, pEH, pEnH, dm);
        a * (1.0 - w * (1.0 - pE)) + b * (1.0 - (1.0 - w * (1.0 - pE)));
        a - w * (a - a * pE) + w * (b * (1.0 - pE));
        a - w * (a - c * pEH) + w * (c * (1.0 - pEH));
        c + (1.0 - w) * (a - c);
      }
    }
  }

  /** P(H|E) is a probability. */
  lemma PosteriorOnEvidenceInUnit(c: real, pEH: real, pEnH: real)
    requires Admissible(c, pEH, pEnH) && 0.0 <= pEnH
    ensures InUnit(PosteriorOnEvidence(c, pEH, pEnH))
  {
    MulNonNegative(c, pEH);
    MulNonNegative(1.0 - c, pEnH);
    FractionInUnit(c * pEH, MarginalLikelihood(c, pEH, pEnH));
  }

  /** The update lies between the prior and the Bayes posterior, so it is a
      probability and never moves opposite to Bayes ("no anti-updating");
      it moves at all only when the discount is below 1. */
  lemma JeffreyBetween(c: real, pEH: real, pEnH: real, dm: real)
    requires Admissible(c, pEH, pEnH) && 0.0 <= pEnH && dm >= 0.0
    ensures var r := JeffreyPosterior(c, pEH, pEnH, dm);
            var b := PosteriorOnEvidence(c, pEH, pEnH);
            && InUnit(r)
            && (c <= b ==> c <= r <= b)
            && (b <= c ==> b <= r <= c)
            && (r > c ==> b > c) && (r < c ==> b < c)
            && (dm < 1.0 ==> (b > c ==> r > c) && (b < c ==> r < c))
  {
    JeffreyClosedForm(c, pEH, pEnH, dm);
    PosteriorOnEvidenceInUnit(c, pEH, pEnH);
    assert 0.0 <= 1.0 - Min(1.0, dm) <= 1.0 && (dm < 1.0 ==> 1.0 - Min(1.0, dm) > 0.0);
    PartialStep(c, PosteriorOnEvidence(c, pEH, pEnH), 1.0 - Min(1.0, dm), JeffreyPosterior(c, pEH, pEnH, dm));
  }

  /** Full distrust: a discount of 1 or more leaves the credence unchanged. */
  lemma FullDiscountIgnoresEvidence(c: real, pEH: real, pEnH: real, dm: real)
    requires Admissible(c, pEH, pEnH) && dm >= 1.0
    ensures JeffreyPosterior(c, pEH, pEnH, dm) == c
  {
    JeffreyClosedForm(c, pEH, pEnH, dm);
  }

  /** No discount: the update is plain Bayesian conditioning. */
  lemma NoDiscountIsBayes(c: real, pEH: real, pEnH: real, dm: real)
    requires Admissible(c, pEH, pEnH) && dm == 0.0
    ensures JeffreyPosterior(c, pEH, pEnH, dm) == c * pEH / MarginalLikelihood(c, pEH, pEnH)
  {
    JeffreyClosedForm(c, pEH, pEnH, dm);
  }

  /** The binomial coefficient cancels: scaling both likelihoods by the same
      positive factor (as `_likelihood` does with n!/(k!(n-k)!)) gives the same
      update, whenever both marginals are proper probabilities. */
  lemma CoefficientCancels(c: real, pEH: real, pEnH: real, coeff: real, dm: real)
    requires Admissible(c, pEH, pEnH) && coeff > 0.0
    requires Admissible(c, coeff * pEH, coeff * pEnH)
    ensures JeffreyPosterior(c, coeff * pEH, coeff * pEnH, dm) == JeffreyPosterior(c, pEH, pEnH, dm)
  {
    JeffreyClosedForm(c, pEH, pEnH, dm);
    JeffreyClosedForm(c, coeff * pEH, coeff * pEnH, dm);
    var pE := MarginalLikelihood(c, pEH, pEnH);
    assert MarginalLikelihood(c, coeff * pEH, coeff * pEnH) == coeff * pE;
    assert c * (coeff * pEH) / (coeff * pE) == c * pEH / pE;
  }

  // ---------------------------------------------------------------------
  // Binomial evidence (jeffreyupdater.py:33-47)
  // ---------------------------------------------------------------------

  /** An experiment the update can use: at least one trial, k <= n. */
  predicate Usable(e: BinomialExperiment)
  {
    1 <= e.n && e.k <= e.n
  }

  /** An experiment the update is defined on: at least one trial. */
  type Trial = e: BinomialExperiment | Usable(e) witness BinomialExperiment(0, 1)

  /** P(H|E) for a binomial report under the two-point model. */
  function BayesPosterior(c: real, e: BinomialExperiment, epsilon: real): (r: real)
    requires InUnit(c) && Usable(e) && ValidEpsilon(epsilon)
    ensures InUnit(r)
    ensures Admissible(c, TruncatedLikelihood(e.k, e.n, SuccessRate(epsilon)),
                          TruncatedPENotH(e.k, e.n, SuccessRate(epsilon)))
  {
    var p := SuccessRate(epsilon);
    MarginalInside(c, e.k, e.n, p);
    LikelihoodsInside(e.k, e.n, p);
    PosteriorOnEvidenceInUnit(c, TruncatedLikelihood(e.k, e.n, p), TruncatedPENotH(e.k, e.n, p));
    PosteriorOnEvidence(c, TruncatedLikelihood(e.k, e.n, p), TruncatedPENotH(e.k, e.n, p))
  }

  /** One discounted Jeffrey update on a binomial report from an influencer
      whose credence is `other`. */
  function UpdateOnEvidence(c: real, other: real, e: BinomialExperiment, epsilon: real, m: real): real
    requires InUnit(c) && Usable(e) && ValidEpsilon(epsilon)
  {
    var p := SuccessRate(epsilon);
    MarginalInside(c, e.k, e.n, p);
    LikelihoodsInside(e.k, e.n, p);
    JeffreyPosterior(c, TruncatedLikelihood(e.k, e.n, p), TruncatedPENotH(e.k, e.n, p), Dm(c, other, m))
  }

  /** The key identity of the update: new credence
      = c + (1 - min(1, dm)) * (P(H|E) - c). */
  lemma UpdateClosedForm(c: real, other: real, e: BinomialExperiment, epsilon: real, m: real)
    requires InUnit(c) && Usable(e) && ValidEpsilon(epsilon)
    ensures UpdateOnEvidence(c, other, e, epsilon, m)
         == c + (1.0 - Min(1.0, Dm(c, other, m))) * (BayesPosterior(c, e, epsilon) - c)
  {
    UpdateIsJeffrey(c, other, e, epsilon, m);
    JeffreyClosedForm(c, TruncatedLikelihood(e.k, e.n, SuccessRate(epsilon)),
                      TruncatedPENotH(e.k, e.n, SuccessRate(epsilon)), Dm(c, other, m));
  }

  /** The update and the Bayes posterior of a binomial report are the
      two-point forms at its truncated likelihoods. */
  lemma UpdateIsJeffrey(c: real, other: real, e: BinomialExperiment, epsilon: real, m: real)
    requires InUnit(c) && Usable(e) && ValidEpsilon(epsilon)
    ensures var p := SuccessRate(epsilon);
            var a := TruncatedLikelihood(e.k, e.n, p);
            var b := TruncatedPENotH(e.k, e.n, p);
            && Admissible(c, a, b)
            && UpdateOnEvidence(c, other, e, epsilon, m) == JeffreyPosterior(c, a, b, Dm(c, other, m))
            && BayesPosterior(c, e, epsilon) == PosteriorOnEvidence(c, a, b)
  {
    var p := SuccessRate(epsilon);
    MarginalInside(c, e.k, e.n, p);
    LikelihoodsInside(e.k, e.n, p);
  }

  /** The intermediates of the update, named as the source names them,
      compose to `JeffreyPosterior`. */
  lemma StepsAreJeffrey(c: real, pEH: real, pEnH: real, dm: real, pE: real, pHE: real, pHnE: real, posterior: real)
    requires Admissible(c, pEH, pEnH) && pE == MarginalLikelihood(c, pEH, pEnH)
    requires pHE == c * pEH / pE && pHnE == c * (1.0 - pEH) / (1.0 - pE)
    requires posterior == CalculatePosterior(c, pHE, 1.0 - Min(1.0, dm) * (1.0 - pE), pHnE)
    ensures posterior == JeffreyPosterior(c, pEH, pEnH, dm)
  {
  }

  /** The arithmetic of `_jeffrey_update_credence_on_influencer` once the
      report `e` and the discount `dm` are known, one intermediate at a time
      (jeffreyupdater.py:36-47, and sim/scientist.py:74-85 in the same
      order): it is a partial step of weight 1 - min(1, dm) from the prior
      towards the Bayes posterior. */
  method UpdateSteps(c: real, e: BinomialExperiment, epsilon: real, dm: real) returns (posterior: real)
    requires InUnit(c) && Usable(e) && ValidEpsilon(epsilon)
    ensures posterior == c + (1.0 - Min(1.0, dm)) * (BayesPosterior(c, e, epsilon) - c)
  {
    var k, n := e.k, e.n;
    var p := SuccessRate(epsilon);
    var pEH := TruncatedLikelihood(k, n, p);
    var pEnH := TruncatedPENotH(k, n, p);
    var pE := MarginalLikelihood(c, pEH, pEnH);
    MarginalInside(c, k, n, p);
    LikelihoodsInside(k, n, p);
    var pHE := c * pEH / pE;
    var pHnE := c * (1.0 - pEH) / (1.0 - pE);
    // No anti-updating: evidence past the discount is simply ignored.
    var posteriorPE := 1.0 - Min(1.0, dm) * (1.0 - pE);
    posterior := CalculatePosterior(c, pHE, posteriorPE, pHnE);
    StepsAreJeffrey(c, pEH, pEnH, dm, pE, pHE, pHnE, posterior);
    JeffreyClosedForm(c, pEH, pEnH, dm);
  }

  /** The update stays in [0, 1], between the prior and the Bayes posterior,
      and never moves against Bayes. */
  lemma UpdateBetween(c: real, other: real, e: BinomialExperiment, epsilon: real, m: real)
    requires InUnit(c) && Usable(e) && ValidEpsilon(epsilon) && m >= 0.0
    ensures var r := UpdateOnEvidence(c, other, e, epsilon, m);
            var b := BayesPosterior(c, e, epsilon);
            && InUnit(r)
            && (c <= b ==> c <= r <= b)
            && (b <= c ==> b <= r <= c)
            && (r > c ==> b > c) && (r < c ==> b < c)
            && (Dm(c, other, m) < 1.0 ==> (b > c ==> r > c) && (b < c ==> r < c))
  {
    var p := SuccessRate(epsilon);
    LikelihoodsInside(e.k, e.n, p);
    MarginalInside(c, e.k, e.n, p);
    JeffreyBetween(c, TruncatedLikelihood(e.k, e.n, p), TruncatedPENotH(e.k, e.n, p), Dm(c, other, m));
  }

  /** dm >= 1 leaves the credence exactly unchanged. */
  lemma UpdateFullyDiscounted(c: real, other: real, e: BinomialExperiment, epsilon: real, m: real)
    requires InUnit(c) && Usable(e) && ValidEpsilon(epsilon) && Dm(c, other, m) >= 1.0
    ensures UpdateOnEvidence(c, other, e, epsilon, m) == c
  {
    UpdateClosedForm(c, other, e, epsilon, m);
  }

  /** dm = 0 (the influencer is the agent itself, or m = 0) gives exactly
      c * P(E|H) / P(E). */
  lemma UpdateUndiscounted(c: real, other: real, e: BinomialExperiment, epsilon: real, m: real)
    requires InUnit(c) && Usable(e) && ValidEpsilon(epsilon)
    requires other == c || m == 0.0
    ensures UpdateOnEvidence(c, other, e, epsilon, m) == BayesPosterior(c, e, epsilon)
  {
    var p := SuccessRate(epsilon);
    var a := TruncatedLikelihood(e.k, e.n, p);
    var b := TruncatedPENotH(e.k, e.n, p);
    MarginalInside(c, e.k, e.n, p);
    LikelihoodsInside(e.k, e.n, p);
    assert UpdateOnEvidence(c, other, e, epsilon, m) == JeffreyPosterior(c, a, b, Dm(c, other, m));
    assert BayesPosterior(c, e, epsilon) == PosteriorOnEvidence(c, a, b);
    NoDiscountIsBayes(c, a, b, Dm(c, other, m));
  }

  /** A credence of exactly 0 is absorbing. */
  lemma UpdateFromZero(other: real, e: BinomialExperiment, epsilon: real, m: real)
    requires Usable(e) && ValidEpsilon(epsilon)
    ensures UpdateOnEvidence(0.0, other, e, epsilon, m) == 0.0
  {
  }

  /** With p > 1/2 and 0 < c < 1 the Bayes posterior rises exactly when the
      report has more successes than failures, and stays put on a tie. */
  lemma {:induction false} EvidenceDirection(c: real, e: BinomialExperiment, epsilon: real)
    requires 0.0 < c < 1.0 && Usable(e) && 0.0 < epsilon < 0.5
    ensures BayesPosterior(c, e, epsilon) > c <==> 2 * e.k > e.n
    ensures BayesPosterior(c, e, epsilon) == c <==> 2 * e.k == e.n
    ensures BayesPosterior(c, e, epsilon) < c <==> 2 * e.k < e.n
  {
    var p := SuccessRate(epsilon);
    var a := TruncatedLikelihood(e.k, e.n, p);
    var b := TruncatedPENotH(e.k, e.n, p);
    MarginalInside(c, e.k, e.n, p);
    LikelihoodsInside(e.k, e.n, p);
    assert BayesPosterior(c, e, epsilon) == PosteriorOnEvidence(c, a, b);
    LikelihoodOrder(e.k, e.n, p);
    PosteriorDirection(c, a, b);
  }

  /** Bayes raises a credence strictly inside (0, 1) exactly when the
      evidence is likelier under H than under not-H. */
  lemma PosteriorDirection(c: real, a: real, b: real)
    requires 0.0 < c < 1.0 && Admissible(c, a, b)
    ensures PosteriorOnEvidence(c, a, b) > c <==> a > b
    ensures PosteriorOnEvidence(c, a, b) == c <==> a == b
  {
    var pE := MarginalLikelihood(c, a, b);
    var post := c * a / pE;
    assert post * pE == c * a;
    // P(H|E) - c = c * (1 - c) * (a - b) / P(E)
    assert (post - c) * pE == c * (1.0 - c) * (a - b);
    MulPositive(c, 1.0 - c);
    if a > b {
      MulPositive(c * (1.0 - c), a - b);
      assert (post - c) * pE > 0.0;
      if post <= c { MulNonNegative(c - post, pE); }
    } else if a < b {
      MulPositive(c * (1.0 - c), b - a);
      assert (c - post) * pE > 0.0;
      if post >= c { MulNonNegative(post - c, pE); }
    } else {
      assert (post - c) * pE == 0.0;
    }
  }

  /** With p > 1/2, P(E|H) exceeds, equals or falls below P(E|not-H) as the
      successes exceed, equal or fall below the failures. */
  lemma LikelihoodOrder(k: nat, n: nat, p: real)
    requires k <= n && 0.5 < p < 1.0
    ensures TruncatedLikelihood(k, n, p) > TruncatedPENotH(k, n, p) <==> 2 * k > n
    ensures TruncatedLikelihood(k, n, p) == TruncatedPENotH(k, n, p) <==> 2 * k == n
  {
    if 2 * k >= n {
      MajorityOrder(k, n, p);
    } else {
      MajorityOrder(n - k, n, p);
      LikelihoodSwap(k, n, p);
      assert n - (n - k) == k;
    }
  }

  /** The case of at least as many successes as failures. */
  lemma MajorityOrder(k: nat, n: nat, p: real)
    requires k <= n && 2 * k >= n && 0.5 < p < 1.0
    ensures TruncatedLikelihood(k, n, p) >= TruncatedPENotH(k, n, p)
    ensures TruncatedLikelihood(k, n, p) == TruncatedPENotH(k, n, p) <==> 2 * k == n
  {
    var q := 1.0 - p;
    var j, d := n - k, 2 * k - n;
    PowPositive(p, j); PowPositive(q, j);
    var common := Pow(p, j) * Pow(q, j);
    MulPositive(Pow(p, j), Pow(q, j));
    Factorization(k, n, p);
    if d >= 1 {
      PowMonotone(p, q, d);
      MulLess(Pow(q, d), Pow(p, d), common);
    }
  }

  /** p^k q^(n-k) and q^k p^(n-k) share the factor (p q)^(n-k) when k >= n-k. */
  lemma Factorization(k: nat, n: nat, p: real)
    requires k <= n && 2 * k >= n
    ensures var q, j := 1.0 - p, n - k;
            && TruncatedLikelihood(k, n, p) == Pow(p, 2 * k - n) * (Pow(p, j) * Pow(q, j))
            && TruncatedPENotH(k, n, p) == Pow(q, 2 * k - n) * (Pow(p, j) * Pow(q, j))
  {
    LikelihoodSplit(k, n, p);
    PENotHSplit(k, n, p);
  }

  lemma LikelihoodSplit(k: nat, n: nat, p: real)
    requires k <= n && 2 * k >= n
    ensures TruncatedLikelihood(k, n, p) == Pow(p, 2 * k - n) * (Pow(p, n - k) * Pow(1.0 - p, n - k))
  {
    SplitPower(p, 1.0 - p, k, n - k, 2 * k - n);
  }

  lemma PENotHSplit(k: nat, n: nat, p: real)
    requires k <= n && 2 * k >= n
    ensures TruncatedPENotH(k, n, p) == Pow(1.0 - p, 2 * k - n) * (Pow(p, n - k) * Pow(1.0 - p, n - k))
  {
    SplitPower(1.0 - p, p, k, n - k, 2 * k - n);
  }

  lemma SplitPower(x: real, y: real, k: nat, j: nat, d: nat)
    requires k == d + j
    ensures Pow(x, k) * Pow(y, j) == Pow(x, d) * (Pow(x, j) * Pow(y, j))
    ensures Pow(x, k) * Pow(y, j) == Pow(x, d) * (Pow(y, j) * Pow(x, j))
  {
    PowAdd(x, d, j);
    Regroup(Pow(x, d), Pow(x, j), Pow(y, j));
  }

  lemma Regroup(x: real, y: real, z: real)
    ensures (x * y) * z == x * (y * z)
    ensures (x * y) * z == x * (z * y)
  {
  }

  /** With p >= 1/2 and at least as many successes as failures, the Bayes
      posterior is at least the prior, at every credence in [0, 1]. */
  lemma FavourableEvidence(c: real, e: BinomialExperiment, epsilon: real)
    requires InUnit(c) && Usable(e) && 0.0 < epsilon < 0.5 && 2 * e.k >= e.n
    ensures BayesPosterior(c, e, epsilon) >= c
  {
    if 0.0 < c < 1.0 {
      EvidenceDirection(c, e, epsilon);
    } else if c == 1.0 {
      var p := SuccessRate(epsilon);
      LikelihoodsInside(e.k, e.n, p);
      assert MarginalLikelihood(c, TruncatedLikelihood(e.k, e.n, p), TruncatedPENotH(e.k, e.n, p))
          == TruncatedLikelihood(e.k, e.n, p);
    }
  }

  // ---------------------------------------------------------------------
  // Updating on a list of influencers (jeffreyupdater.py:19-26)
  // ---------------------------------------------------------------------

  /** What an updating agent reads from one influencer: whether it is the
      agent itself, the influencer's credence, and its round experiment
      (`get_experiment_data()`; None when it did not experiment). */
  datatype Source = Source(isSelf: bool, credence: real, data: Option<BinomialExperiment>)

  predicate UsableSource(src: Source)
  {
    src.data.Some? ==> Usable(src.data.value)
  }

  predicate UsableSources(srcs: seq<Source>)
  {
    forall i | 0 <= i < |srcs| :: UsableSource(srcs[i])
  }

  /** The parameters every updating agent carries. */
  predicate ValidUpdater(epsilon: real, m: real)
  {
    ValidEpsilon(epsilon) && m >= 0.0
  }

  /** `_jeffrey_update_credence_on_influencer`: no data, no change; otherwise
      the discounted update, with dm taken against the influencer's credence.
      When the influencer is the agent itself its credence is the agent's own
      current credence, so dm = 0. */
  function StepOn(c: real, src: Source, epsilon: real, m: real): (r: real)
    requires InUnit(c) && ValidUpdater(epsilon, m) && UsableSource(src)
    ensures InUnit(r)
    ensures src.data.None? ==> r == c
  {
    match src.data
    case None => c
    case Some(e) =>
      var other := if src.isSelf then c else src.credence;
      UpdateBetween(c, other, e, epsilon, m);
      UpdateOnEvidence(c, other, e, epsilon, m)
  }

  /** A step on a report is the partial step towards the Bayes posterior,
      with the discount taken against the source's credence (the agent's
      own when it reads itself). */
  lemma StepOnClosedForm(c: real, src: Source, epsilon: real, m: real)
    requires InUnit(c) && ValidUpdater(epsilon, m) && UsableSource(src) && src.data.Some?
    requires src.isSelf ==> src.credence == c
    ensures StepOn(c, src, epsilon, m)
         == c + (1.0 - Min(1.0, Dm(c, src.credence, m))) * (BayesPosterior(c, src.data.value, epsilon) - c)
  {
    UpdateClosedForm(c, src.credence, src.data.value, epsilon, m);
  }

  /** `jeffrey_update_credence`: a left fold of the per-influencer update over
      the influencer list, in list order, each step starting from the credence
      the previous step produced. */
  function Fold(c: real, srcs: seq<Source>, epsilon: real, m: real): (r: real)
    requires InUnit(c) && ValidUpdater(epsilon, m) && UsableSources(srcs)
    ensures InUnit(r)
    decreases |srcs|
  {
    if srcs == [] then c
    else Fold(StepOn(c, srcs[0], epsilon, m), srcs[1..], epsilon, m)
  }

  /** Folding over one more influencer applies one more step at the end. */
  lemma {:induction false} FoldSnoc(c: real, srcs: seq<Source>, src: Source, epsilon: real, m: real)
    requires InUnit(c) && ValidUpdater(epsilon, m) && UsableSources(srcs) && UsableSource(src)
    ensures UsableSources(srcs + [src])
    ensures Fold(c, srcs + [src], epsilon, m) == StepOn(Fold(c, srcs, epsilon, m), src, epsilon, m)
    decreases |srcs|
  {
    if srcs != [] {
      assert (srcs + [src])[1..] == srcs[1..] + [src];
      FoldSnoc(StepOn(c, srcs[0], epsilon, m), srcs[1..], src, epsilon, m);
    }
  }

  /** A credence of 0 stays 0 whatever the influencers report. */
  lemma {:induction false} FoldFromZero(srcs: seq<Source>, epsilon: real, m: real)
    requires ValidUpdater(epsilon, m) && UsableSources(srcs)
    ensures Fold(0.0, srcs, epsilon, m) == 0.0
    decreases |srcs|
  {
    if srcs != [] {
      if srcs[0].data.Some? {
        UpdateFromZero(if srcs[0].isSelf then 0.0 else srcs[0].credence, srcs[0].data.value, epsilon, m);
      }
      FoldFromZero(srcs[1..], epsilon, m);
    }
  }

  /** Influencers that report nothing leave the credence unchanged. */
  lemma {:induction false} FoldWithoutData(c: real, srcs: seq<Source>, epsilon: real, m: real)
    requires InUnit(c) && ValidUpdater(epsilon, m) && UsableSources(srcs)
    requires forall i | 0 <= i < |srcs| :: srcs[i].data.None?
    ensures Fold(c, srcs, epsilon, m) == c
    decreases |srcs|
  {
    if srcs != [] {
      FoldWithoutData(c, srcs[1..], epsilon, m);
    }
  }

  /** Updating on oneself with an experiment is plain Bayesian conditioning. */
  lemma StepOnSelf(c: real, own: real, e: BinomialExperiment, epsilon: real, m: real)
    requires InUnit(c) && ValidUpdater(epsilon, m) && Usable(e)
    ensures StepOn(c, Source(true, own, Some(e)), epsilon, m) == BayesPosterior(c, e, epsilon)
  {
    UpdateUndiscounted(c, c, e, epsilon, m);
  }

  /** When every report has at least as many successes as failures and the
      better theory really is better (epsilon > 0), no influencer can lower
      the credence: the fold ends at or above where it started. */
  lemma {:induction false} FoldFavourable(c: real, srcs: seq<Source>, epsilon: real, m: real)
    requires InUnit(c) && ValidUpdater(epsilon, m) && UsableSources(srcs) && epsilon > 0.0
    requires forall i | 0 <= i < |srcs| :: srcs[i].data.Some? ==> 2 * srcs[i].data.value.k >= srcs[i].data.value.n
    ensures Fold(c, srcs, epsilon, m) >= c
    decreases |srcs|
  {
    if srcs != [] {
      var src := srcs[0];
      if src.data.Some? {
        var other := if src.isSelf then c else src.credence;
        FavourableEvidence(c, src.data.value, epsilon);
        UpdateBetween(c, other, src.data.value, epsilon, m);
      }
      FoldFavourable(StepOn(c, src, epsilon, m), srcs[1..], epsilon, m);
    }
  }

  // ---------------------------------------------------------------------
  // What an agent reads during a round, as values
  // ---------------------------------------------------------------------

  /** The sources `owner` reads from its influencer list `infs` when every
      agent's credence is given by `cred` and its round experiment by `data`. */
  function ViewOf<T(==)>(owner: T, infs: seq<T>, cred: map<T, real>, data: map<T, Option<BinomialExperiment>>): (view: seq<Source>)
    requires forall x | x in infs :: x in cred && x in data
    ensures |view| == |infs|
    ensures (forall x | x in infs :: data[x].Some? ==> Usable(data[x].value)) ==> UsableSources(view)
  {
    seq(|infs|, j requires 0 <= j < |infs| => Source(infs[j] == owner, cred[infs[j]], data[infs[j]]))
  }
}

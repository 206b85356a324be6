/** What the rounded Bayesian score promises about its outcomes. */
module TrustArithmetic {
  import opened Tables
  import opened TrustScore

  /** The prior's stored trust is the percentage its alpha and beta stand for. */
  ghost predicate Consistent(p: Prior) {
    p.alpha > 0 && p.beta > 0 && p.priorTrust * (p.alpha + p.beta) as real == p.alpha as real
    && (p.priorTrust * 100.0).Floor as real == p.priorTrust * 100.0
  }

  lemma ConfiguredPriorsConsistent(dt: string)
    ensures Consistent(PriorOf(dt)) && Consistent(GLOBAL_PRIOR)
  {
  }

  function Total(n: nat, p: Prior): real
  {
    (n + p.alpha + p.beta) as real
  }

  /** The percentage before rounding, for any number of outcomes. */
  function Percentage(outcomes: seq<FinalOutcome>, p: Prior): real
    requires p.alpha > 0
  {
    (WeightedSuccesses(outcomes) + p.alpha as real) / Total(|outcomes|, p) * 100.0
  }

  lemma Quotient(a: real, b: real, q: real)
    requires b > 0.0 && q == a / b
    ensures q * b == a
  {
  }

  lemma Cancel(x: real, y: real, t: real)
    requires t > 0.0
    ensures x * t <= y * t ==> x <= y
    ensures x * t == y * t ==> x == y
  {
    if x > y {
      assert (x - y) * t > 0.0;
    } else if x < y {
      assert (y - x) * t > 0.0;
    }
  }

  /** The empty-list branch is the formula with no outcomes. */
  lemma ScoreIsRounded(outcomes: seq<FinalOutcome>, p: Prior)
    requires Consistent(p)
    ensures Score(outcomes, p) == Round(Percentage(outcomes, p)) as real
  {
    if outcomes == [] {
      var t, q := Total(0, p), p.alpha as real / Total(0, p);
      Quotient(p.alpha as real, t, q);
      Cancel(q, p.priorTrust, t);
      assert Percentage(outcomes, p) == p.priorTrust * 100.0;
      assert (p.priorTrust * 100.0 + 0.5).Floor == (p.priorTrust * 100.0).Floor;
    }
  }

  lemma RoundMonotone(x: real, y: real)
    requires x <= y
    ensures Round(x) <= Round(y)
  {
  }

  lemma {:induction false} WeightBounds(outcomes: seq<FinalOutcome>)
    ensures 0.0 <= WeightedSuccesses(outcomes) <= |outcomes| as real
  {
    if outcomes != [] {
      WeightBounds(outcomes[..|outcomes| - 1]);
    }
  }

  /** Compare percentages by cross-multiplying. */
  lemma CompareFractions(a: real, s: real, b: real, t: real)
    requires s > 0.0 && t > 0.0 && a * t <= b * s
    ensures a / s * 100.0 <= b / t * 100.0
  {
    var x, y := a / s, b / t;
    Quotient(a, s, x);
    Quotient(b, t, y);
    assert x * (s * t) == a * t by { assert x * (s * t) == (x * s) * t; }
    assert y * (s * t) == b * s by { assert y * (s * t) == (y * t) * s; }
    Cancel(x, y, s * t);
  }

  lemma ScoreInRange(outcomes: seq<FinalOutcome>, p: Prior)
    requires Consistent(p)
    ensures 0.0 <= Score(outcomes, p) <= 100.0
  {
    ScoreIsRounded(outcomes, p);
    WeightBounds(outcomes);
    var t := Total(|outcomes|, p);
    CompareFractions(0.0, 1.0, WeightedSuccesses(outcomes) + p.alpha as real, t);
    CompareFractions(WeightedSuccesses(outcomes) + p.alpha as real, t, 1.0, 1.0);
    RoundMonotone(0.0, Percentage(outcomes, p));
    RoundMonotone(Percentage(outcomes, p), 100.0);
  }

  // ----- order does not matter -----

  lemma {:induction false} WeightIsCount(outcomes: seq<FinalOutcome>)
    ensures WeightedSuccesses(outcomes) == multiset(outcomes)[SUCCESS] as real + 0.5 * multiset(outcomes)[MIXED] as real
  {
    if outcomes != [] {
      var before, last := outcomes[..|outcomes| - 1], outcomes[|outcomes| - 1];
      WeightIsCount(before);
      assert outcomes == before + [last];
    }
  }

  lemma ScorePermutes(a: seq<FinalOutcome>, b: seq<FinalOutcome>, p: Prior)
    requires multiset(a) == multiset(b)
    ensures Score(a, p) == Score(b, p)
  {
    WeightIsCount(a);
    WeightIsCount(b);
    assert |a| == |multiset(a)| && |b| == |multiset(b)|;
  }

  // ----- better outcomes, better scores -----

  lemma {:induction false} WeightUpdate(outcomes: seq<FinalOutcome>, i: nat, o: FinalOutcome)
    requires i < |outcomes|
    ensures WeightedSuccesses(outcomes[i := o]) == WeightedSuccesses(outcomes) - Weight(outcomes[i]) + Weight(o)
  {
    var n := |outcomes| - 1;
    if i < n {
      WeightUpdate(outcomes[..n], i, o);
      assert outcomes[i := o][..n] == outcomes[..n][i := o];
    } else {
      assert outcomes[i := o][..n] == outcomes[..n];
    }
  }

  /** Improving an outcome never lowers the score. */
  lemma ImprovingHelps(outcomes: seq<FinalOutcome>, i: nat, o: FinalOutcome, p: Prior)
    requires Consistent(p) && i < |outcomes| && Weight(outcomes[i]) <= Weight(o)
    ensures Score(outcomes, p) <= Score(outcomes[i := o], p)
  {
    var better := outcomes[i := o];
    WeightUpdate(outcomes, i, o);
    ScoreIsRounded(outcomes, p);
    ScoreIsRounded(better, p);
    var t := Total(|outcomes|, p);
    Scale(WeightedSuccesses(outcomes) + p.alpha as real, WeightedSuccesses(better) + p.alpha as real, t);
    CompareFractions(WeightedSuccesses(outcomes) + p.alpha as real, t, WeightedSuccesses(better) + p.alpha as real, t);
    RoundMonotone(Percentage(outcomes, p), Percentage(better, p));
  }

  lemma Scale(a: real, b: real, t: real)
    requires a <= b && t >= 0.0
    ensures a * t <= b * t
  {
    assert (b - a) * t >= 0.0;
  }

  lemma AppendedWeight(outcomes: seq<FinalOutcome>, o: FinalOutcome)
    ensures WeightedSuccesses(outcomes + [o]) == WeightedSuccesses(outcomes) + Weight(o)
  {
    assert (outcomes + [o])[..|outcomes|] == outcomes;
  }

  /** One more success never lowers the score. */
  lemma SuccessHelps(outcomes: seq<FinalOutcome>, p: Prior)
    requires Consistent(p)
    ensures Score(outcomes, p) <= Score(outcomes + [SUCCESS], p)
  {
    var more := outcomes + [SUCCESS];
    AppendedWeight(outcomes, SUCCESS);
    WeightBounds(outcomes);
    ScoreIsRounded(outcomes, p);
    ScoreIsRounded(more, p);
    var a, t := WeightedSuccesses(outcomes) + p.alpha as real, Total(|outcomes|, p);
    assert a * (t + 1.0) == a * t + a && (a + 1.0) * t == a * t + t;
    CompareFractions(a, t, a + 1.0, t + 1.0);
    RoundMonotone(Percentage(outcomes, p), Percentage(more, p));
  }

  /** One more failure or abandonment never raises it. */
  lemma FailureHurts(outcomes: seq<FinalOutcome>, o: FinalOutcome, p: Prior)
    requires Consistent(p) && Weight(o) == 0.0
    ensures Score(outcomes + [o], p) <= Score(outcomes, p)
  {
    var more := outcomes + [o];
    AppendedWeight(outcomes, o);
    WeightBounds(outcomes);
    ScoreIsRounded(outcomes, p);
    ScoreIsRounded(more, p);
    var a, t := WeightedSuccesses(outcomes) + p.alpha as real, Total(|outcomes|, p);
    assert a * (t + 1.0) == a * t + a;
    CompareFractions(a, t + 1.0, a, t);
    RoundMonotone(Percentage(more, p), Percentage(outcomes, p));
  }

  // ----- shrinkage towards the prior -----

  function Larger(a: nat, b: nat): nat {
    if a < b then b else a
  }

  /** The score is within 100 max(alpha, beta) / (n + alpha + beta) + 1/2 of the weighted success percentage. */
  lemma ShrinkageBound(outcomes: seq<FinalOutcome>, p: Prior)
    requires Consistent(p) && outcomes != []
    ensures var raw := WeightedSuccesses(outcomes) / |outcomes| as real * 100.0;
            var slack := Larger(p.alpha, p.beta) as real / Total(|outcomes|, p) * 100.0 + 0.5;
            raw - slack <= Score(outcomes, p) <= raw + slack
  {
    WeightBounds(outcomes);
    ScoreIsRounded(outcomes, p);
    Pull(WeightedSuccesses(outcomes), |outcomes| as real, p.alpha as real, p.beta as real,
         Larger(p.alpha, p.beta) as real, Total(|outcomes|, p));
  }

  lemma Pull(w: real, n: real, a: real, b: real, m: real, t: real)
    requires 0.0 <= w <= n && n > 0.0 && 0.0 <= a <= m && 0.0 <= b <= m && t == n + a + b
    ensures w / n - m / t <= (w + a) / t <= w / n + m / t
  {
    var u, v, s := w / n, (w + a) / t, m / t;
    Quotient(w, n, u);
    Quotient(w + a, t, v);
    Quotient(m, t, s);
    UnitInterval(u, w, n);
    Shift(u, a, b, m);
    var d := a - u * (a + b);
    assert u * t == w + u * (a + b) by {
      assert u * t == u * n + u * (a + b);
    }
    assert v * t - u * t == d && s * t == m;
    assert (u + s) * t == u * t + m && (u - s) * t == u * t - m;
    Cancel(v, u + s, t);
    Cancel(u - s, v, t);
  }

  lemma UnitInterval(u: real, w: real, n: real)
    requires 0.0 <= w <= n && n > 0.0 && u * n == w
    ensures 0.0 <= u <= 1.0
  {
    Cancel(0.0, u, n);
    Cancel(u, 1.0, n);
  }

  /** Pulling a rate towards the prior moves its numerator by at most the larger pseudo-count. */
  lemma Shift(u: real, a: real, b: real, m: real)
    requires 0.0 <= u <= 1.0 && 0.0 <= a <= m && 0.0 <= b <= m
    ensures -m <= a - u * (a + b) <= m
  {
    Scale(0.0, u, a);
    Scale(u, 1.0, a);
    Scale(0.0, u, b);
    Scale(u, 1.0, b);
    var ua, ub := u * a, u * b;
    assert u * (a + b) == ua + ub;
    assert 0.0 <= ua <= a && 0.0 <= ub <= b;
  }
}

/** The sequential Bayes update (cryptoswarms/bayesian_update.py): every probability is clamped to [0.001, 0.999]
    on the way in and on the way out. */
module BayesianUpdate {
  import opened Common

  const LOWEST: real := 0.001
  const HIGHEST: real := 0.999

  function Clamp(value: real): real {
    MinReal(HIGHEST, MaxReal(LOWEST, value))
  }

  predicate Unclamped(x: real) {
    LOWEST <= x <= HIGHEST
  }

  datatype Evidence = Evidence(ifTrue: real, ifFalse: real)

  function BayesUpdate(prior: real, e: Evidence): real {
    var p := Clamp(prior);
    var lt := Clamp(e.ifTrue);
    var lf := Clamp(e.ifFalse);
    var numerator := Times(lt, p);
    var denominator := numerator + Times(lf, 1.0 - p);
    if denominator <= 0.0 then p else Clamp(numerator / denominator)
  }

  /** The posterior after all the evidence, the first entry used first. */
  function Posterior(prior: real, evidence: seq<Evidence>): real {
    if evidence == [] then Clamp(prior)
    else BayesUpdate(Posterior(prior, evidence[..|evidence| - 1]), evidence[|evidence| - 1])
  }

  method SequentialBayesUpdate(prior: real, evidence: seq<Evidence>) returns (post: real)
    ensures post == Posterior(prior, evidence) && 0.001 <= post <= 0.999
  {
    post := Clamp(prior);
    for i := 0 to |evidence|
      invariant post == Posterior(prior, evidence[..i])
    {
      assert evidence[..i + 1][..i] == evidence[..i];
      post := BayesUpdate(post, evidence[i]);
    }
    assert evidence[..|evidence|] == evidence;
    PosteriorUnclamped(prior, evidence);
  }

  lemma {:induction false} PosteriorUnclamped(prior: real, evidence: seq<Evidence>)
    ensures Unclamped(Posterior(prior, evidence)) && 0.001 <= Posterior(prior, evidence) <= 0.999
    ensures evidence == [] && 0.001 <= prior <= 0.999 ==> Posterior(prior, evidence) == prior
  {
  }

  // ---------------------------------------------------------------- one update as a ratio

  /** a / (a + b), the probability with odds a to b. */
  function Ratio(a: real, b: real): real
    requires a > 0.0 && b > 0.0
  {
    a / (a + b)
  }

  lemma RatioBounds(a: real, b: real)
    requires a > 0.0 && b > 0.0
    ensures 0.0 < Ratio(a, b) < 1.0 && Times(Ratio(a, b), a + b) == a
  {
  }

  lemma TimesPositive(x: real, y: real)
    requires x > 0.0 && y > 0.0
    ensures Times(x, y) > 0.0
  {
  }

  lemma UpdateIsRatio(prior: real, e: Evidence)
    ensures var p := Clamp(prior);
      var a, b := Times(Clamp(e.ifTrue), p), Times(Clamp(e.ifFalse), 1.0 - p);
      a > 0.0 && b > 0.0 && BayesUpdate(prior, e) == Clamp(Ratio(a, b))
  {
    var p := Clamp(prior);
    TimesPositive(Clamp(e.ifTrue), p);
    TimesPositive(Clamp(e.ifFalse), 1.0 - p);
  }

  /** More on the left and less on the right is a larger ratio. */
  lemma RatioOrdered(a: real, b: real, c: real, d: real)
    requires 0.0 < a <= c && 0.0 < d <= b
    ensures Ratio(a, b) <= Ratio(c, d)
  {
    CrossTerms(a, b, c, d);
    QuotientsOrdered(a, a + b, c, c + d);
  }

  lemma CrossTerms(a: real, b: real, c: real, d: real)
    requires 0.0 < a <= c && 0.0 < d <= b
    ensures a * (c + d) <= c * (a + b)
  {
    assert a * d <= c * d;
    assert c * d <= c * b;
  }

  lemma QuotientsOrdered(a: real, b: real, c: real, d: real)
    requires b > 0.0 && d > 0.0 && a * d <= c * b
    ensures a / b <= c / d
  {
    var x, y := a / b, c / d;
    assert x * b == a && y * d == c;
    assert (x - y) * (b * d) == (x * b) * d - (y * d) * b;
    NotPositive(x - y, b * d);
  }

  lemma NotPositive(x: real, y: real)
    requires y > 0.0 && x * y <= 0.0
    ensures x <= 0.0
  {
  }

  // ---------------------------------------------------------------- monotone, even where values are clamped

  /** f speaks at least as strongly for the hypothesis as e. */
  predicate Favours(e: Evidence, f: Evidence) {
    e.ifTrue <= f.ifTrue && f.ifFalse <= e.ifFalse
  }

  predicate AllFavour(a: seq<Evidence>, b: seq<Evidence>) {
    |a| == |b| && forall i :: 0 <= i < |a| ==> Favours(a[i], b[i])
  }

  lemma UpdateMonotone(p: real, q: real, e: Evidence, f: Evidence)
    requires p <= q && Favours(e, f)
    ensures BayesUpdate(p, e) <= BayesUpdate(q, f)
  {
    UpdateIsRatio(p, e);
    UpdateIsRatio(q, f);
    var cp, cq := Clamp(p), Clamp(q);
    ProductsOrdered(Clamp(e.ifTrue), cp, Clamp(f.ifTrue), cq);
    ProductsOrdered(Clamp(f.ifFalse), 1.0 - cq, Clamp(e.ifFalse), 1.0 - cp);
    RatioOrdered(Times(Clamp(e.ifTrue), cp), Times(Clamp(e.ifFalse), 1.0 - cp),
      Times(Clamp(f.ifTrue), cq), Times(Clamp(f.ifFalse), 1.0 - cq));
  }

  lemma ProductsOrdered(a: real, b: real, c: real, d: real)
    requires 0.0 <= a <= c && 0.0 <= b <= d
    ensures Times(a, b) <= Times(c, d)
  {
    assert a * b <= c * b;
    assert c * b <= c * d;
  }

  /** A higher prior or stronger evidence never lowers the posterior. */
  lemma {:induction false} PosteriorMonotone(p: real, q: real, a: seq<Evidence>, b: seq<Evidence>)
    requires p <= q && AllFavour(a, b)
    ensures Posterior(p, a) <= Posterior(q, b)
    decreases |a|
  {
    if a != [] {
      var n := |a| - 1;
      PosteriorMonotone(p, q, a[..n], b[..n]);
      UpdateMonotone(Posterior(p, a[..n]), Posterior(q, b[..n]), a[n], b[n]);
    }
  }

  // ---------------------------------------------------------------- the other hypothesis

  function Swap(e: Evidence): Evidence {
    Evidence(e.ifFalse, e.ifTrue)
  }

  function SwapAll(evidence: seq<Evidence>): (r: seq<Evidence>)
    ensures |r| == |evidence|
  {
    seq(|evidence|, i requires 0 <= i < |evidence| => Swap(evidence[i]))
  }

  lemma RatioMirrored(a: real, b: real)
    requires a > 0.0 && b > 0.0
    ensures Ratio(b, a) == 1.0 - Ratio(a, b)
  {
    assert a / (a + b) + b / (a + b) == (a + b) / (a + b) == 1.0;
  }

  lemma UpdateMirrored(p: real, e: Evidence)
    ensures BayesUpdate(1.0 - p, Swap(e)) == 1.0 - BayesUpdate(p, e)
  {
    UpdateIsRatio(p, e);
    UpdateIsRatio(1.0 - p, Swap(e));
    assert Clamp(1.0 - p) == 1.0 - Clamp(p);
    RatioMirrored(Times(Clamp(e.ifTrue), Clamp(p)), Times(Clamp(e.ifFalse), 1.0 - Clamp(p)));
  }

  /** Clamping treats a hypothesis and its negation alike: their posteriors always add up to one. */
  lemma {:induction false} PosteriorMirrored(p: real, evidence: seq<Evidence>)
    ensures Posterior(1.0 - p, SwapAll(evidence)) == 1.0 - Posterior(p, evidence)
    decreases |evidence|
  {
    if evidence != [] {
      var n := |evidence| - 1;
      PosteriorMirrored(p, evidence[..n]);
      assert SwapAll(evidence)[..n] == SwapAll(evidence[..n]);
      UpdateMirrored(Posterior(p, evidence[..n]), evidence[n]);
    }
  }

  // ---------------------------------------------------------------- sentiment as evidence

  function SentimentLikelihoods(sentiment: real): Evidence {
    var score := MaxReal(-1.0, MinReal(1.0, sentiment));
    var strength := if score >= 0.0 then score else -score;
    if score >= 0.0 then Evidence(0.50 + 0.35 * strength, 0.50 - 0.20 * strength)
    else Evidence(0.50 - 0.20 * strength, 0.50 + 0.35 * strength)
  }

  /** No sentiment says nothing, the strongest says 0.85 against 0.30, and in between the likelihoods are the mean of
      the two, weighted by the strength; beyond 1 nothing changes, and a negative sentiment says the opposite. */
  lemma SentimentIsMixed(s: real)
    ensures SentimentLikelihoods(0.0) == Evidence(0.5, 0.5)
    ensures s >= 1.0 ==> SentimentLikelihoods(s) == Evidence(0.85, 0.3)
    ensures 0.0 <= s <= 1.0 ==>
      && SentimentLikelihoods(s).ifTrue == (1.0 - s) * 0.5 + s * 0.85
      && SentimentLikelihoods(s).ifFalse == (1.0 - s) * 0.5 + s * 0.3
    ensures SentimentLikelihoods(-s) == Swap(SentimentLikelihoods(s))
  {
  }

  function FromSentiment(scores: seq<real>): (r: seq<Evidence>)
    ensures |r| == |scores|
  {
    seq(|scores|, i requires 0 <= i < |scores| => SentimentLikelihoods(scores[i]))
  }

  function Negated(scores: seq<real>): (r: seq<real>)
    ensures |r| == |scores|
  {
    seq(|scores|, i requires 0 <= i < |scores| => -scores[i])
  }

  /** Scores that are nowhere lower never lower the posterior. */
  lemma SentimentMoves(p: real, scores: seq<real>, higher: seq<real>)
    requires |scores| == |higher| && forall i :: 0 <= i < |scores| ==> scores[i] <= higher[i]
    ensures Posterior(p, FromSentiment(scores)) <= Posterior(p, FromSentiment(higher))
  {
    forall i | 0 <= i < |scores| ensures Favours(FromSentiment(scores)[i], FromSentiment(higher)[i]) {
      assert scores[i] <= higher[i];
    }
    PosteriorMonotone(p, p, FromSentiment(scores), FromSentiment(higher));
  }

  /** Reversing every score mirrors the posterior. */
  lemma SentimentMirrored(p: real, scores: seq<real>)
    ensures Posterior(1.0 - p, FromSentiment(Negated(scores))) == 1.0 - Posterior(p, FromSentiment(scores))
  {
    PosteriorMirrored(p, FromSentiment(scores));
    assert FromSentiment(Negated(scores)) == SwapAll(FromSentiment(scores));
  }

  // ---------------------------------------------------------------- the closed form

  function Product(f: Evidence -> real, evidence: seq<Evidence>): real {
    if evidence == [] then 1.0
    else Times(Product(f, evidence[..|evidence| - 1]), f(evidence[|evidence| - 1]))
  }

  lemma {:induction false} ProductPositive(f: Evidence -> real, evidence: seq<Evidence>)
    requires forall e :: f(e) > 0.0
    ensures Product(f, evidence) > 0.0
  {
    if evidence != [] {
      var n := |evidence| - 1;
      ProductPositive(f, evidence[..n]);
      TimesPositive(Product(f, evidence[..n]), f(evidence[n]));
    }
  }

  function IfTrue(e: Evidence): real {
    Clamp(e.ifTrue)
  }

  function IfFalse(e: Evidence): real {
    Clamp(e.ifFalse)
  }

  function ProductTrue(evidence: seq<Evidence>): (r: real)
    ensures r > 0.0
  {
    ProductPositive(IfTrue, evidence);
    Product(IfTrue, evidence)
  }

  function ProductFalse(evidence: seq<Evidence>): (r: real)
    ensures r > 0.0
  {
    ProductPositive(IfFalse, evidence);
    Product(IfFalse, evidence)
  }

  /** Bayes' rule in one step: p * prod lt / (p * prod lt + (1 - p) * prod lf). */
  function BayesRule(prior: real, evidence: seq<Evidence>): real {
    var p := Clamp(prior);
    var a, b := ProductTrue(evidence), ProductFalse(evidence);
    TimesPositive(p, a);
    TimesPositive(1.0 - p, b);
    Ratio(Times(p, a), Times(1.0 - p, b))
  }

  /** No intermediate result leaves [0.001, 0.999]. */
  ghost predicate NeverClamps(prior: real, evidence: seq<Evidence>) {
    forall k :: 0 <= k <= |evidence| ==> Unclamped(BayesRule(prior, evidence[..k]))
  }

  lemma Associate(x: real, y: real, z: real)
    ensures Times(Times(x, y), z) == Times(x, Times(y, z))
  {
  }

  lemma RatioScaled(a: real, b: real, s: real)
    requires a > 0.0 && b > 0.0 && s > 0.0
    ensures Times(a, s) > 0.0 && Times(b, s) > 0.0 && Ratio(Times(a, s), Times(b, s)) == Ratio(a, b)
  {
    var r := Ratio(a, b);
    assert r * (a + b) == a;
    assert a * s + b * s == (a + b) * s;
    assert r * ((a + b) * s) == (r * (a + b)) * s;
  }

  /** Updating the odds a : b by l : m. */
  lemma RatioOfRatio(a: real, b: real, l: real, m: real)
    requires a > 0.0 && b > 0.0 && l > 0.0 && m > 0.0
    ensures var x := Ratio(a, b);
      && 0.0 < x < 1.0 && Times(l, x) > 0.0 && Times(m, 1.0 - x) > 0.0
      && Times(a, l) > 0.0 && Times(b, m) > 0.0
      && Ratio(Times(l, x), Times(m, 1.0 - x)) == Ratio(Times(a, l), Times(b, m))
  {
    var x, s := Ratio(a, b), a + b;
    RatioBounds(a, b);
    RatioMirrored(a, b);
    RatioBounds(b, a);
    TimesPositive(l, x);
    TimesPositive(m, 1.0 - x);
    Associate(l, x, s);
    Associate(m, 1.0 - x, s);
    assert Times(l, a) == Times(a, l) && Times(m, b) == Times(b, m);
    RatioScaled(Times(l, x), Times(m, 1.0 - x), s);
  }

  /** One more entry multiplies the odds by its clamped likelihoods. */
  lemma RuleStep(prior: real, evidence: seq<Evidence>)
    requires evidence != []
    ensures var n := |evidence| - 1;
      var x := BayesRule(prior, evidence[..n]);
      var l, m := Clamp(evidence[n].ifTrue), Clamp(evidence[n].ifFalse);
      && 0.0 < x < 1.0 && Times(l, x) > 0.0 && Times(m, 1.0 - x) > 0.0
      && BayesRule(prior, evidence) == Ratio(Times(l, x), Times(m, 1.0 - x))
  {
    var n := |evidence| - 1;
    var p := Clamp(prior);
    var a, b := ProductTrue(evidence[..n]), ProductFalse(evidence[..n]);
    var l, m := Clamp(evidence[n].ifTrue), Clamp(evidence[n].ifFalse);
    TimesPositive(p, a);
    TimesPositive(1.0 - p, b);
    RatioOfRatio(Times(p, a), Times(1.0 - p, b), l, m);
    Associate(p, a, l);
    Associate(1.0 - p, b, m);
  }

  lemma {:induction false} UnclampedIsBayes(prior: real, evidence: seq<Evidence>)
    requires NeverClamps(prior, evidence)
    ensures Posterior(prior, evidence) == BayesRule(prior, evidence)
    decreases |evidence|
  {
    assert evidence[..|evidence|] == evidence;
    if evidence == [] {
      assert Times(Clamp(prior), 1.0) == Clamp(prior) && Times(1.0 - Clamp(prior), 1.0) == 1.0 - Clamp(prior);
    } else {
      var n := |evidence| - 1;
      assert forall k :: 0 <= k <= n ==> evidence[..n][..k] == evidence[..k];
      UnclampedIsBayes(prior, evidence[..n]);
      assert evidence[..n][..n] == evidence[..n];
      RuleStep(prior, evidence);
      assert Unclamped(BayesRule(prior, evidence[..n]));
      UpdateIsRatio(BayesRule(prior, evidence[..n]), evidence[n]);
    }
  }

  /** Every intermediate posterior is Bayes' rule exactly when Bayes' rule stays within the clamping bounds. */
  lemma BayesExactlyWhenUnclamped(prior: real, evidence: seq<Evidence>)
    ensures NeverClamps(prior, evidence) <==>
      (forall k :: 0 <= k <= |evidence| ==> Posterior(prior, evidence[..k]) == BayesRule(prior, evidence[..k]))
  {
    if NeverClamps(prior, evidence) {
      forall k | 0 <= k <= |evidence| ensures Posterior(prior, evidence[..k]) == BayesRule(prior, evidence[..k]) {
        assert forall j :: 0 <= j <= k ==> evidence[..k][..j] == evidence[..j];
        UnclampedIsBayes(prior, evidence[..k]);
      }
    }
    if forall k :: 0 <= k <= |evidence| ==> Posterior(prior, evidence[..k]) == BayesRule(prior, evidence[..k]) {
      forall k | 0 <= k <= |evidence| ensures Unclamped(BayesRule(prior, evidence[..k])) {
        PosteriorUnclamped(prior, evidence[..k]);
        assert Posterior(prior, evidence[..k]) == BayesRule(prior, evidence[..k]);
      }
    }
  }

  // ---------------------------------------------------------------- the order of the evidence

  lemma Reassociate(x: real, y: real, z: real)
    ensures Times(Times(x, y), z) == Times(Times(x, z), y)
  {
  }

  function Removed(evidence: seq<Evidence>, i: nat): (r: seq<Evidence>)
    requires i < |evidence|
    ensures |r| == |evidence| - 1
  {
    evidence[..i] + evidence[i + 1..]
  }

  lemma RemovedParts(evidence: seq<Evidence>, i: nat)
    requires i < |evidence|
    ensures multiset(evidence) == multiset(Removed(evidence, i)) + multiset{evidence[i]}
    ensures var n := |evidence| - 1;
      && (i == n ==> Removed(evidence, i) == evidence[..n])
      && (i < n ==> Removed(evidence, i) == Removed(evidence[..n], i) + [evidence[n]])
  {
    assert evidence == evidence[..i] + [evidence[i]] + evidence[i + 1..];
  }

  /** Any entry can be taken out of a product. */
  lemma {:induction false} TakeOut(f: Evidence -> real, evidence: seq<Evidence>, i: nat)
    requires i < |evidence|
    ensures Product(f, evidence) == Times(Product(f, Removed(evidence, i)), f(evidence[i]))
    decreases |evidence|
  {
    var n := |evidence| - 1;
    RemovedParts(evidence, i);
    if i < n {
      TakeOut(f, evidence[..n], i);
      var shorter := Removed(evidence[..n], i);
      ProductOneMore(f, shorter, evidence[n]);
      Reassociate(Product(f, shorter), f(evidence[i]), f(evidence[n]));
    }
  }

  lemma ProductOneMore(f: Evidence -> real, evidence: seq<Evidence>, e: Evidence)
    ensures Product(f, evidence + [e]) == Times(Product(f, evidence), f(e))
  {
    assert (evidence + [e])[..|evidence|] == evidence;
  }

  lemma FindLast(a: seq<Evidence>, b: seq<Evidence>) returns (i: nat)
    requires multiset(a) == multiset(b) && a != []
    ensures i < |b| && b[i] == a[|a| - 1] && multiset(a[..|a| - 1]) == multiset(Removed(b, i))
  {
    var n := |a| - 1;
    RemovedParts(a, n);
    assert a[n] in multiset(b);
    i :| 0 <= i < |b| && b[i] == a[n];
    RemovedParts(b, i);
    CancelOne(multiset(a[..n]), multiset(Removed(b, i)), multiset{a[n]});
  }

  lemma CancelOne(a: multiset<Evidence>, b: multiset<Evidence>, x: multiset<Evidence>)
    requires a + x == b + x
    ensures a == b
  {
    assert a == (a + x) - x && b == (b + x) - x;
  }

  /** A product over the entries does not depend on their order. */
  lemma {:induction false} ProductIgnoresOrder(f: Evidence -> real, a: seq<Evidence>, b: seq<Evidence>)
    requires multiset(a) == multiset(b)
    ensures Product(f, a) == Product(f, b)
    decreases |a|
  {
    if a == [] {
      assert |multiset(b)| == 0;
    } else {
      var i := FindLast(a, b);
      ProductIgnoresOrder(f, a[..|a| - 1], Removed(b, i));
      TakeOut(f, b, i);
    }
  }

  /** Where nothing is clamped, the order of the evidence does not matter. */
  lemma OrderIrrelevantUnclamped(prior: real, a: seq<Evidence>, b: seq<Evidence>)
    requires multiset(a) == multiset(b) && NeverClamps(prior, a) && NeverClamps(prior, b)
    ensures Posterior(prior, a) == Posterior(prior, b)
  {
    ProductIgnoresOrder(IfTrue, a, b);
    ProductIgnoresOrder(IfFalse, a, b);
    UnclampedIsBayes(prior, a);
    UnclampedIsBayes(prior, b);
  }
}

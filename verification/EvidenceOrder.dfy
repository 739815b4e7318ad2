/** When the order of the evidence matters to the sequential Bayes update (cryptoswarms/bayesian_update.py).

    In odds, one update multiplies by the likelihood ratio and cuts the result to [1/999, 999]. Among all orders of
    the same evidence, the one that takes the supporting entries first ends lowest and the one that takes the opposing
    entries first ends highest; the order is irrelevant exactly when these two agree. */
module EvidenceOrder {
  import opened Common
  import opened StableSort
  import opened BayesianUpdate

  const MOST: real := 999.0
  const LEAST: real := 1.0 / 999.0

  // ---------------------------------------------------------------- odds

  function Odds(p: real): real
    requires p < 1.0
  {
    p / (1.0 - p)
  }

  function Cut(x: real): real {
    MinReal(MOST, MaxReal(LEAST, x))
  }

  predicate WithinCut(o: real) {
    LEAST <= o <= MOST
  }

  /** The likelihood ratio of one entry, and its supporting and opposing parts. */
  function Factor(e: Evidence): real {
    IfTrue(e) / IfFalse(e)
  }

  function Up(e: Evidence): real {
    MaxReal(1.0, Factor(e))
  }

  function Down(e: Evidence): real {
    MinReal(1.0, Factor(e))
  }

  lemma FactorParts(e: Evidence)
    ensures Factor(e) > 0.0 && Up(e) >= 1.0 && 0.0 < Down(e) <= 1.0
    ensures Factor(e) == if Down(e) == 1.0 then Up(e) else Down(e)
    ensures Up(e) == 1.0 || Down(e) == 1.0
  {
    QuotientPositive(IfTrue(e), IfFalse(e));
  }

  lemma QuotientPositive(x: real, y: real)
    requires x > 0.0 && y > 0.0
    ensures x / y > 0.0
  {
  }

  lemma QuotientIs(x: real, y: real, q: real)
    requires y > 0.0 && q * y == x
    ensures x / y == q
  {
  }

  lemma QuotientOfQuotients(a: real, b: real, c: real, d: real)
    requires b > 0.0 && d > 0.0
    ensures Times(b, d) > 0.0 && Times(a / b, c / d) == Times(a, c) / Times(b, d)
  {
    TimesPositive(b, d);
    var x, y := a / b, c / d;
    assert x * b == a && y * d == c;
    assert (x * y) * (b * d) == (x * b) * (y * d);
    QuotientIs(a * c, b * d, x * y);
  }

  lemma OddsOfRatio(a: real, b: real)
    requires a > 0.0 && b > 0.0
    ensures 0.0 < Ratio(a, b) < 1.0 && Odds(Ratio(a, b)) == a / b
  {
    RatioBounds(a, b);
    RatioMirrored(a, b);
    RatioBounds(b, a);
    var x, s, q := Ratio(a, b), a + b, a / b;
    assert x * s == a && (1.0 - x) * s == b && q * b == a;
    assert (q * (1.0 - x) - x) * s == q * ((1.0 - x) * s) - x * s;
    OnlyZero(q * (1.0 - x) - x, s);
    QuotientIs(x, 1.0 - x, q);
  }

  lemma OnlyZero(x: real, s: real)
    requires s > 0.0 && x * s == 0.0
    ensures x == 0.0
  {
  }

  lemma OddsOrdered(p: real, q: real)
    requires 0.0 < p < 1.0 && 0.0 < q < 1.0
    ensures p <= q <==> Odds(p) <= Odds(q)
    ensures p == q <==> Odds(p) == Odds(q)
  {
    var x, y := Odds(p), Odds(q);
    assert x * (1.0 - p) == p && y * (1.0 - q) == q;
    assert (1.0 + x) * (1.0 - p) == 1.0 && (1.0 + y) * (1.0 - q) == 1.0;
    assert 1.0 + x > 0.0 && 1.0 + y > 0.0 by {
      QuotientPositive(p, 1.0 - p);
      QuotientPositive(q, 1.0 - q);
    }
    Reciprocals(1.0 + x, 1.0 - p, 1.0 + y, 1.0 - q);
  }

  lemma Reciprocals(a: real, b: real, c: real, d: real)
    requires a > 0.0 && b > 0.0 && c > 0.0 && d > 0.0 && a * b == 1.0 && c * d == 1.0
    ensures a <= c <==> d <= b
  {
    assert (c - a) * b == c * b - 1.0;
    assert c * (b - d) == c * b - 1.0;
    SameSign(c - a, b, c, b - d);
  }

  lemma SameSign(x: real, b: real, c: real, y: real)
    requires b > 0.0 && c > 0.0 && x * b == c * y
    ensures x >= 0.0 <==> y >= 0.0
  {
  }

  lemma OddsOfClamp(p: real)
    requires 0.0 < p < 1.0
    ensures Odds(Clamp(p)) == Cut(Odds(p)) && WithinCut(Odds(Clamp(p)))
  {
    QuotientIs(LOWEST, 1.0 - LOWEST, LEAST);
    QuotientIs(HIGHEST, 1.0 - HIGHEST, MOST);
    OddsOrdered(LOWEST, p);
    OddsOrdered(p, HIGHEST);
  }

  /** One update in odds. */
  lemma OddsOfUpdate(p: real, e: Evidence)
    requires Unclamped(p)
    ensures Unclamped(BayesUpdate(p, e)) && Odds(BayesUpdate(p, e)) == Cut(Times(Odds(p), Factor(e)))
  {
    UpdateIsRatio(p, e);
    var a, b := Times(IfTrue(e), p), Times(IfFalse(e), 1.0 - p);
    assert Clamp(p) == p;
    OddsOfRatio(a, b);
    OddsOfClamp(Ratio(a, b));
    OddsTimesFactor(p, e);
  }

  lemma OddsTimesFactor(p: real, e: Evidence)
    requires Unclamped(p)
    ensures Times(IfFalse(e), 1.0 - p) > 0.0
    ensures Times(Odds(p), Factor(e)) == Times(IfTrue(e), p) / Times(IfFalse(e), 1.0 - p)
  {
    QuotientOfQuotients(p, 1.0 - p, IfTrue(e), IfFalse(e));
    TimesCommute(p, IfTrue(e));
    TimesCommute(1.0 - p, IfFalse(e));
  }

  lemma TimesCommute(x: real, y: real)
    ensures Times(x, y) == Times(y, x)
  {
  }

  // ---------------------------------------------------------------- the walk of the odds

  function Walk(o: real, evidence: seq<Evidence>): real {
    if evidence == [] then o
    else Cut(Times(Walk(o, evidence[..|evidence| - 1]), Factor(evidence[|evidence| - 1])))
  }

  function PriorOdds(prior: real): (o: real)
    ensures WithinCut(o)
  {
    OddsOfClamp(Clamp(prior));
    Odds(Clamp(prior))
  }

  lemma {:induction false} PosteriorOdds(prior: real, evidence: seq<Evidence>)
    ensures Unclamped(Posterior(prior, evidence))
    ensures Odds(Posterior(prior, evidence)) == Walk(PriorOdds(prior), evidence)
  {
    if evidence != [] {
      var n := |evidence| - 1;
      PosteriorOdds(prior, evidence[..n]);
      OddsOfUpdate(Posterior(prior, evidence[..n]), evidence[n]);
    }
  }

  lemma SameOddsSamePosterior(prior: real, a: seq<Evidence>, b: seq<Evidence>)
    ensures Posterior(prior, a) <= Posterior(prior, b) <==> Walk(PriorOdds(prior), a) <= Walk(PriorOdds(prior), b)
  {
    PosteriorOdds(prior, a);
    PosteriorOdds(prior, b);
    OddsOrdered(Posterior(prior, a), Posterior(prior, b));
  }

  /** The product of the ratios above one, and of those below one. */
  function Rise(evidence: seq<Evidence>): real {
    Product(Up, evidence)
  }

  function Drop(evidence: seq<Evidence>): real {
    Product(Down, evidence)
  }

  lemma {:induction false} RiseAndDrop(evidence: seq<Evidence>)
    ensures Rise(evidence) >= 1.0 && 0.0 < Drop(evidence) <= 1.0
  {
    if evidence != [] {
      var n := |evidence| - 1;
      RiseAndDrop(evidence[..n]);
      FactorParts(evidence[n]);
      Bigger(Rise(evidence[..n]), Up(evidence[n]));
      Smaller(Drop(evidence[..n]), Down(evidence[n]));
    }
  }

  lemma Bigger(x: real, u: real)
    requires x >= 0.0 && u >= 1.0
    ensures Times(x, u) >= x
  {
  }

  lemma Smaller(x: real, d: real)
    requires x > 0.0 && 0.0 < d <= 1.0
    ensures 0.0 < Times(x, d) <= x
  {
  }

  /** Where the odds end with all supporting entries first, and with all opposing entries first. */
  function UpsFirst(o: real, u: real, d: real): real {
    MaxReal(LEAST, Times(MinReal(MOST, Times(o, u)), d))
  }

  function DownsFirst(o: real, u: real, d: real): real {
    MinReal(MOST, Times(MaxReal(LEAST, Times(o, d)), u))
  }

  /** Cutting before multiplying by u >= 1 can only give more than cutting after it. */
  lemma CutThenUp(x: real, u: real)
    requires x > 0.0 && u >= 1.0
    ensures MinReal(MOST, Times(x, u)) <= Times(MinReal(MOST, x), u)
  {
    Bigger(MOST, u);
  }

  lemma CutThenDown(x: real, d: real)
    requires x > 0.0 && 0.0 < d <= 1.0
    ensures Times(MaxReal(LEAST, x), d) <= MaxReal(LEAST, Times(x, d))
  {
    Smaller(LEAST, d);
  }

  lemma LowerUp(o: real, u: real, d: real, w: real, f: real)
    requires WithinCut(o) && WithinCut(w) && u >= 1.0 && 0.0 < d <= 1.0 && f >= 1.0
    requires UpsFirst(o, u, d) <= w
    ensures UpsFirst(o, Times(u, f), d) <= Cut(Times(w, f))
  {
    Bigger(o, u);
    Bigger(w, f);
    var x := Times(o, u);
    Associate(o, u, f);
    CutThenUp(x, f);
    var low, lowF := MinReal(MOST, x), MinReal(MOST, Times(x, f));
    TimesOrdered(lowF, Times(low, f), d);
    Reassociate(low, f, d);
    TimesOrdered(Times(low, d), w, f);
    Bigger(x, f);
    Smaller(lowF, d);
  }

  lemma LowerDown(o: real, u: real, d: real, w: real, f: real)
    requires WithinCut(o) && WithinCut(w) && u >= 1.0 && 0.0 < d <= 1.0 && 0.0 < f <= 1.0
    requires UpsFirst(o, u, d) <= w
    ensures UpsFirst(o, u, Times(d, f)) <= Cut(Times(w, f))
  {
    var low := MinReal(MOST, Times(o, u));
    Associate(low, d, f);
    TimesOrdered(Times(low, d), w, f);
    Smaller(w, f);
  }

  lemma UpperUp(o: real, u: real, d: real, w: real, f: real)
    requires WithinCut(o) && WithinCut(w) && u >= 1.0 && 0.0 < d <= 1.0 && f >= 1.0
    requires w <= DownsFirst(o, u, d)
    ensures Cut(Times(w, f)) <= DownsFirst(o, Times(u, f), d)
  {
    var high := MaxReal(LEAST, Times(o, d));
    Associate(high, u, f);
    TimesOrdered(w, Times(high, u), f);
    Bigger(w, f);
  }

  lemma UpperDown(o: real, u: real, d: real, w: real, f: real)
    requires WithinCut(o) && WithinCut(w) && u >= 1.0 && 0.0 < d <= 1.0 && 0.0 < f <= 1.0
    requires w <= DownsFirst(o, u, d)
    ensures Cut(Times(w, f)) <= DownsFirst(o, u, Times(d, f))
  {
    Smaller(o, d);
    Smaller(w, f);
    var x := Times(o, d);
    Associate(o, d, f);
    CutThenDown(x, f);
    var high, highF := MaxReal(LEAST, x), MaxReal(LEAST, Times(x, f));
    TimesOrdered(Times(high, f), highF, u);
    Reassociate(high, f, u);
    TimesOrdered(w, Times(high, u), f);
    Bigger(highF, u);
  }

  /** Every walk ends between the two extreme orders. */
  lemma {:induction false} WalkBetween(o: real, evidence: seq<Evidence>)
    requires WithinCut(o)
    ensures WithinCut(Walk(o, evidence))
    ensures UpsFirst(o, Rise(evidence), Drop(evidence)) <= Walk(o, evidence)
    ensures Walk(o, evidence) <= DownsFirst(o, Rise(evidence), Drop(evidence))
  {
    if evidence == [] {
      assert Times(o, 1.0) == o;
    } else {
      var n := |evidence| - 1;
      var front, e := evidence[..n], evidence[n];
      WalkBetween(o, front);
      RiseAndDrop(front);
      StepBetween(o, Rise(front), Drop(front), Walk(o, front), e);
    }
  }

  lemma StepBetween(o: real, u: real, d: real, w: real, e: Evidence)
    requires WithinCut(o) && WithinCut(w) && u >= 1.0 && 0.0 < d <= 1.0
    requires UpsFirst(o, u, d) <= w <= DownsFirst(o, u, d)
    ensures UpsFirst(o, Times(u, Up(e)), Times(d, Down(e))) <= Cut(Times(w, Factor(e)))
    ensures Cut(Times(w, Factor(e))) <= DownsFirst(o, Times(u, Up(e)), Times(d, Down(e)))
  {
    FactorParts(e);
    assert Times(u, 1.0) == u && Times(d, 1.0) == d;
    if Down(e) == 1.0 {
      LowerUp(o, u, d, w, Up(e));
      UpperUp(o, u, d, w, Up(e));
    } else {
      LowerDown(o, u, d, w, Down(e));
      UpperDown(o, u, d, w, Down(e));
    }
  }

  // ---------------------------------------------------------------- the two extreme orders are orders

  predicate Supports(e: Evidence) {
    Factor(e) >= 1.0
  }

  predicate Opposes(e: Evidence) {
    !Supports(e)
  }

  lemma {:induction false} SplitBySide(evidence: seq<Evidence>)
    ensures multiset(Keep(Supports, evidence)) + multiset(Keep(Opposes, evidence)) == multiset(evidence)
    ensures forall e :: e in Keep(Supports, evidence) ==> Down(e) == 1.0
    ensures forall e :: e in Keep(Opposes, evidence) ==> Up(e) == 1.0
  {
    if evidence != [] {
      SplitBySide(evidence[1..]);
      assert evidence == [evidence[0]] + evidence[1..];
    }
  }

  lemma {:induction false} ProductOfOnes(f: Evidence -> real, evidence: seq<Evidence>)
    requires forall e :: e in evidence ==> f(e) == 1.0
    ensures Product(f, evidence) == 1.0
  {
    if evidence != [] {
      var n := |evidence| - 1;
      LastApart(evidence);
      ProductOfOnes(f, evidence[..n]);
    }
  }

  lemma {:induction false} ProductConcat(f: Evidence -> real, a: seq<Evidence>, b: seq<Evidence>)
    ensures Product(f, a + b) == Times(Product(f, a), Product(f, b))
  {
    if b == [] {
      assert a + b == a;
    } else {
      var n := |b| - 1;
      ProductConcat(f, a, b[..n]);
      ConcatFront(a, b);
      Associate(Product(f, a), Product(f, b[..n]), f(b[n]));
    }
  }

  lemma {:induction false} WalkConcat(o: real, a: seq<Evidence>, b: seq<Evidence>)
    ensures Walk(o, a + b) == Walk(Walk(o, a), b)
  {
    if b == [] {
      assert a + b == a;
    } else {
      WalkConcat(o, a, b[..|b| - 1]);
      ConcatFront(a, b);
    }
  }

  /** Evidence of one side leaves no choice: the bounds of the walk meet. */
  lemma WalkOneSided(o: real, ups: seq<Evidence>, downs: seq<Evidence>)
    requires WithinCut(o)
    requires forall e :: e in ups ==> Down(e) == 1.0
    requires forall e :: e in downs ==> Up(e) == 1.0
    ensures Walk(o, ups) == MinReal(MOST, Times(o, Rise(ups)))
    ensures Walk(o, downs) == MaxReal(LEAST, Times(o, Drop(downs)))
  {
    ProductOfOnes(Down, ups);
    ProductOfOnes(Up, downs);
    WalkBetween(o, ups);
    WalkBetween(o, downs);
    RiseAndDrop(ups);
    RiseAndDrop(downs);
    Bigger(o, Rise(ups));
    Smaller(o, Drop(downs));
    NeutralBounds(o, Rise(ups), Drop(downs));
  }

  lemma NeutralBounds(o: real, u: real, d: real)
    requires WithinCut(o) && Times(o, u) >= o && 0.0 < Times(o, d) <= o
    ensures UpsFirst(o, u, 1.0) == DownsFirst(o, u, 1.0) == MinReal(MOST, Times(o, u))
    ensures UpsFirst(o, 1.0, d) == DownsFirst(o, 1.0, d) == MaxReal(LEAST, Times(o, d))
  {
    assert Times(o, 1.0) == o;
    assert Times(MinReal(MOST, Times(o, u)), 1.0) == MinReal(MOST, Times(o, u));
    assert Times(MaxReal(LEAST, Times(o, d)), 1.0) == MaxReal(LEAST, Times(o, d));
  }

  lemma SidesCarryProducts(evidence: seq<Evidence>)
    ensures var ups, downs := Keep(Supports, evidence), Keep(Opposes, evidence);
      && multiset(ups + downs) == multiset(downs + ups) == multiset(evidence)
      && Rise(ups) == Rise(evidence) && Drop(downs) == Drop(evidence)
  {
    var ups, downs := Keep(Supports, evidence), Keep(Opposes, evidence);
    SplitBySide(evidence);
    ProductIgnoresOrder(Up, ups + downs, evidence);
    ProductIgnoresOrder(Down, ups + downs, evidence);
    ProductConcat(Up, ups, downs);
    ProductConcat(Down, ups, downs);
    ProductOfOnes(Up, downs);
    ProductOfOnes(Down, ups);
  }

  lemma ExtremesAttained(o: real, evidence: seq<Evidence>)
    requires WithinCut(o)
    ensures var ups, downs := Keep(Supports, evidence), Keep(Opposes, evidence);
      && multiset(ups + downs) == multiset(downs + ups) == multiset(evidence)
      && Walk(o, ups + downs) == UpsFirst(o, Rise(evidence), Drop(evidence))
      && Walk(o, downs + ups) == DownsFirst(o, Rise(evidence), Drop(evidence))
  {
    var ups, downs := Keep(Supports, evidence), Keep(Opposes, evidence);
    SplitBySide(evidence);
    SidesCarryProducts(evidence);
    WalkOneSided(o, ups, downs);
    WalkBetween(o, ups);
    WalkBetween(o, downs);
    WalkOneSided(Walk(o, ups), ups, downs);
    WalkOneSided(Walk(o, downs), ups, downs);
    WalkConcat(o, ups, downs);
    WalkConcat(o, downs, ups);
  }

  /** Of all orders of the same evidence, taking what supports the hypothesis first gives the lowest posterior, and
      taking what opposes it first gives the highest. */
  lemma SupportFirstIsLowest(prior: real, evidence: seq<Evidence>, order: seq<Evidence>)
    requires multiset(order) == multiset(evidence)
    ensures var ups, downs := Keep(Supports, evidence), Keep(Opposes, evidence);
      && multiset(ups + downs) == multiset(downs + ups) == multiset(evidence)
      && Posterior(prior, ups + downs) <= Posterior(prior, order) <= Posterior(prior, downs + ups)
  {
    var ups, downs := Keep(Supports, evidence), Keep(Opposes, evidence);
    var o := PriorOdds(prior);
    ExtremesAttained(o, evidence);
    ProductIgnoresOrder(Up, order, evidence);
    ProductIgnoresOrder(Down, order, evidence);
    WalkBetween(o, order);
    SameOddsSamePosterior(prior, ups + downs, order);
    SameOddsSamePosterior(prior, order, downs + ups);
  }

  // ---------------------------------------------------------------- the exact condition

  /** Nothing supports the hypothesis, or nothing opposes it, or there is room for all support and all opposition. */
  predicate OrderFree(o: real, u: real, d: real) {
    u == 1.0 || d == 1.0 || (Times(o, u) <= MOST && Times(o, d) >= LEAST)
  }

  lemma ExtremesMeet(o: real, u: real, d: real)
    requires WithinCut(o) && u >= 1.0 && 0.0 < d <= 1.0 && OrderFree(o, u, d)
    ensures UpsFirst(o, u, d) == DownsFirst(o, u, d)
  {
    Bigger(o, u);
    Smaller(o, d);
    if u == 1.0 || d == 1.0 {
      NeutralBounds(o, u, d);
    } else {
      Reassociate(o, u, d);
      Smaller(Times(o, u), d);
      Bigger(Times(o, d), u);
    }
  }

  lemma ExtremesDiffer(o: real, u: real, d: real)
    requires WithinCut(o) && u >= 1.0 && 0.0 < d <= 1.0 && !OrderFree(o, u, d)
    ensures UpsFirst(o, u, d) < DownsFirst(o, u, d)
  {
    var low, high := MinReal(MOST, Times(o, u)), MaxReal(LEAST, Times(o, d));
    Bigger(o, u);
    Smaller(o, d);
    StrictlyScaled(1.0, u, high);
    StrictlyScaled(d, 1.0, low);
    TimesOrdered(low, Times(o, u), d);
    TimesOrdered(Times(o, d), high, u);
    Reassociate(o, u, d);
    if Times(o, u) > MOST {
      StrictlyScaled(low, Times(o, u), d);
    } else {
      StrictlyScaled(Times(o, d), high, u);
    }
  }

  lemma StrictlyScaled(x: real, y: real, z: real)
    requires x < y && z > 0.0
    ensures Times(x, z) < Times(y, z) && Times(z, x) < Times(z, y)
    ensures Times(1.0, z) == z == Times(z, 1.0)
  {
  }

  ghost predicate OrderIrrelevant(prior: real, evidence: seq<Evidence>) {
    forall order: seq<Evidence> :: multiset(order) == multiset(evidence) ==>
      Posterior(prior, order) == Posterior(prior, evidence)
  }

  lemma EqualExtremesDecide(prior: real, evidence: seq<Evidence>, order: seq<Evidence>)
    requires OrderFree(PriorOdds(prior), Rise(evidence), Drop(evidence)) && multiset(order) == multiset(evidence)
    ensures Posterior(prior, order) == Posterior(prior, evidence)
  {
    ExtremesEqualExactlyWhen(prior, evidence);
    SupportFirstIsLowest(prior, evidence, order);
    SupportFirstIsLowest(prior, evidence, evidence);
  }

  lemma DifferentExtremesRefute(prior: real, evidence: seq<Evidence>)
    requires !OrderFree(PriorOdds(prior), Rise(evidence), Drop(evidence))
    ensures !OrderIrrelevant(prior, evidence)
  {
    var ups, downs := Keep(Supports, evidence), Keep(Opposes, evidence);
    var first, last := ups + downs, downs + ups;
    ExtremesEqualExactlyWhen(prior, evidence);
    SidesCarryProducts(evidence);
    assert multiset(first) == multiset(evidence) && multiset(last) == multiset(evidence);
    assert Posterior(prior, first) != Posterior(prior, evidence) || Posterior(prior, last) != Posterior(prior, evidence);
  }

  /** All orders of the evidence give the same posterior if and only if nothing supports the hypothesis, nothing
      opposes it, or the prior odds have room for all of the one and all of the other. */
  lemma OrderIrrelevantExactlyWhen(prior: real, evidence: seq<Evidence>)
    ensures OrderIrrelevant(prior, evidence) <==> OrderFree(PriorOdds(prior), Rise(evidence), Drop(evidence))
  {
    if OrderFree(PriorOdds(prior), Rise(evidence), Drop(evidence)) {
      forall order: seq<Evidence> | multiset(order) == multiset(evidence)
        ensures Posterior(prior, order) == Posterior(prior, evidence)
      {
        EqualExtremesDecide(prior, evidence, order);
      }
    } else {
      DifferentExtremesRefute(prior, evidence);
    }
  }

  lemma ExtremesEqualExactlyWhen(prior: real, evidence: seq<Evidence>)
    ensures var ups, downs := Keep(Supports, evidence), Keep(Opposes, evidence);
      Posterior(prior, ups + downs) == Posterior(prior, downs + ups)
      <==> OrderFree(PriorOdds(prior), Rise(evidence), Drop(evidence))
  {
    var o, u, d := PriorOdds(prior), Rise(evidence), Drop(evidence);
    var ups, downs := Keep(Supports, evidence), Keep(Opposes, evidence);
    RiseAndDrop(evidence);
    ExtremesAttained(o, evidence);
    SameOddsSamePosterior(prior, ups + downs, downs + ups);
    SameOddsSamePosterior(prior, downs + ups, ups + downs);
    if OrderFree(o, u, d) {
      ExtremesMeet(o, u, d);
    } else {
      ExtremesDiffer(o, u, d);
    }
  }

  const YES: Evidence := Evidence(0.999, 0.001)
  const NO: Evidence := Evidence(0.001, 0.999)

  lemma UpdatesAtTheBounds()
    ensures BayesUpdate(0.5, YES) == 0.999 && BayesUpdate(0.999, YES) == 0.999
    ensures BayesUpdate(0.999, NO) == 0.5 && BayesUpdate(0.5, NO) == 0.001
  {
  }

  /** Where an intermediate result is clamped it does matter: strong evidence spent at the bound is lost. */
  lemma OrderMattersClamped()
    ensures Posterior(0.5, [YES, YES, NO, NO]) == 0.001
    ensures Posterior(0.5, [YES, NO, YES, NO]) == 0.5
    ensures multiset([YES, YES, NO, NO]) == multiset([YES, NO, YES, NO])
  {
    UpdatesAtTheBounds();
    var none: seq<Evidence> := [];
    PosteriorAfter(0.5, none, YES);
    assert none + [YES] == [YES];
    PosteriorAfter(0.5, [YES], YES);
    assert [YES] + [YES] == [YES, YES];
    PosteriorAfter(0.5, [YES, YES], NO);
    assert [YES, YES] + [NO] == [YES, YES, NO];
    PosteriorAfter(0.5, [YES, YES, NO], NO);
    assert [YES, YES, NO] + [NO] == [YES, YES, NO, NO];
    PosteriorAfter(0.5, [YES], NO);
    assert [YES] + [NO] == [YES, NO];
    PosteriorAfter(0.5, [YES, NO], YES);
    assert [YES, NO] + [YES] == [YES, NO, YES];
    PosteriorAfter(0.5, [YES, NO, YES], NO);
    assert [YES, NO, YES] + [NO] == [YES, NO, YES, NO];
  }

  lemma PosteriorAfter(prior: real, evidence: seq<Evidence>, e: Evidence)
    ensures Posterior(prior, evidence + [e]) == BayesUpdate(Posterior(prior, evidence), e)
  {
    assert (evidence + [e])[..|evidence|] == evidence;
  }
}

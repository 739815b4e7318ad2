/** The parameter sweep (agents/backtest/production.py): a recursive walk over the value lists that mutates one
    shared dict, never restores it, and stops early once enough results are in. */
module ParameterSweep {
  import opened Common

  type Params = map<string, real>

  /** One entry of the parameter space. */
  datatype Axis = Axis(key: string, values: seq<real>)

  datatype Scores = Scores(sharpe: real, maxDrawdown: real, totalReturn: real)

  datatype SweepResult = SweepResult(params: Params, scores: Scores)

  predicate DistinctKeys(axes: seq<Axis>) {
    forall i, j :: 0 <= i < j < |axes| ==> axes[i].key != axes[j].key
  }

  // ---------------------------------------------------------------- the lexicographic product

  /** The number of combinations in k blocks of s. */
  function Blocks(k: nat, s: nat): nat {
    k * s
  }

  /** The number of combinations. */
  function Size(axes: seq<Axis>): nat {
    if axes == [] then 1 else Blocks(|axes[0].values|, Size(axes[1..]))
  }

  lemma BlocksOrdered(k: nat, m: nat, s: nat)
    requires k < m
    ensures Blocks(k, s) + s == Blocks(k + 1, s) <= Blocks(m, s)
  {
  }

  /** Which value of every axis is used: the members of the product as index vectors. */
  predicate ValidRanks(axes: seq<Axis>, r: seq<nat>) {
    |r| == |axes| && forall j :: 0 <= j < |r| ==> r[j] < |axes[j].values|
  }

  predicate LexLess(a: seq<nat>, b: seq<nat>)
    requires |a| == |b|
  {
    a != [] && (a[0] < b[0] || (a[0] == b[0] && LexLess(a[1..], b[1..])))
  }

  /** The position of an index vector in lexicographic order. */
  function Number(axes: seq<Axis>, r: seq<nat>): nat
    requires ValidRanks(axes, r)
  {
    if axes == [] then 0 else Blocks(r[0], Size(axes[1..])) + Number(axes[1..], r[1..])
  }

  lemma {:induction false} NumberBelowSize(axes: seq<Axis>, r: seq<nat>)
    requires ValidRanks(axes, r)
    ensures Number(axes, r) < Size(axes)
  {
    if axes != [] {
      NumberBelowSize(axes[1..], r[1..]);
      BlocksOrdered(r[0], |axes[0].values|, Size(axes[1..]));
    }
  }

  lemma LeadingRank(a: nat, b: nat, s: nat, x: nat, y: nat)
    requires x < s && y < s
    ensures Blocks(a, s) + x < Blocks(b, s) + y <==> a < b || (a == b && x < y)
    ensures Blocks(a, s) + x == Blocks(b, s) + y <==> a == b && x == y
  {
    if a < b {
      BlocksOrdered(a, b, s);
    } else if b < a {
      BlocksOrdered(b, a, s);
    }
  }

  /** Numbering preserves the lexicographic order, in both directions. */
  lemma {:induction false} NumberIsLexicographic(axes: seq<Axis>, a: seq<nat>, b: seq<nat>)
    requires ValidRanks(axes, a) && ValidRanks(axes, b)
    ensures LexLess(a, b) <==> Number(axes, a) < Number(axes, b)
    ensures a == b <==> Number(axes, a) == Number(axes, b)
  {
    if axes != [] {
      var s := Size(axes[1..]);
      NumberBelowSize(axes[1..], a[1..]);
      NumberBelowSize(axes[1..], b[1..]);
      NumberIsLexicographic(axes[1..], a[1..], b[1..]);
      LeadingRank(a[0], b[0], s, Number(axes[1..], a[1..]), Number(axes[1..], b[1..]));
      assert a == [a[0]] + a[1..] && b == [b[0]] + b[1..];
    }
  }

  function ValuesAt(axes: seq<Axis>, r: seq<nat>): (v: seq<real>)
    requires ValidRanks(axes, r)
    ensures |v| == |axes|
  {
    seq(|axes|, j requires 0 <= j < |axes| => axes[j].values[r[j]])
  }

  /** The candidate's own parameters overlaid with one value per axis. */
  function Overlay(base: Params, axes: seq<Axis>, v: seq<real>): Params
    requires |v| <= |axes|
  {
    if v == [] then base else Overlay(base, axes, v[..|v| - 1])[axes[|v| - 1].key := v[|v| - 1]]
  }

  // ---------------------------------------------------------------- what the walk visits

  /** The parameter dicts evaluated below a prefix of chosen values, all of them. */
  function Points(base: Params, axes: seq<Axis>, prefix: seq<real>): seq<Params>
    requires |prefix| <= |axes|
    decreases |axes| - |prefix|, 0
  {
    if |prefix| == |axes| then [Overlay(base, axes, prefix)]
    else PointsUpTo(base, axes, prefix, |axes[|prefix|].values|)
  }

  /** Those below the first k values of the next axis. */
  function PointsUpTo(base: Params, axes: seq<Axis>, prefix: seq<real>, k: nat): seq<Params>
    requires |prefix| < |axes| && k <= |axes[|prefix|].values|
    decreases |axes| - |prefix| - 1, 1, k
  {
    if k == 0 then []
    else PointsUpTo(base, axes, prefix, k - 1) + Points(base, axes, prefix + [axes[|prefix|].values[k - 1]])
  }

  lemma {:induction false} PointsSize(base: Params, axes: seq<Axis>, prefix: seq<real>)
    requires |prefix| <= |axes|
    ensures |Points(base, axes, prefix)| == Size(axes[|prefix|..])
    decreases |axes| - |prefix|, 0
  {
    if |prefix| < |axes| {
      var rest := axes[|prefix|..];
      assert rest[1..] == axes[|prefix| + 1..];
      PointsUpToSize(base, axes, prefix, |axes[|prefix|].values|);
    }
  }

  lemma {:induction false} PointsUpToSize(base: Params, axes: seq<Axis>, prefix: seq<real>, k: nat)
    requires |prefix| < |axes| && k <= |axes[|prefix|].values|
    ensures |PointsUpTo(base, axes, prefix, k)| == Blocks(k, Size(axes[|prefix| + 1..]))
    decreases |axes| - |prefix| - 1, 1, k
  {
    if k > 0 {
      PointsUpToSize(base, axes, prefix, k - 1);
      PointsSize(base, axes, prefix + [axes[|prefix|].values[k - 1]]);
      BlocksOrdered(k - 1, k, Size(axes[|prefix| + 1..]));
    }
  }

  /** The points are the lexicographic product: the one numbered like the index vector r carries r's values. */
  lemma {:induction false} PointsAreProduct(base: Params, axes: seq<Axis>, prefix: seq<real>, r: seq<nat>)
    requires |prefix| <= |axes| && ValidRanks(axes[|prefix|..], r)
    ensures var n := Number(axes[|prefix|..], r);
      && n < |Points(base, axes, prefix)|
      && Points(base, axes, prefix)[n] == Overlay(base, axes, prefix + ValuesAt(axes[|prefix|..], r))
    decreases |axes| - |prefix|, 0
  {
    if |prefix| == |axes| {
      assert prefix + ValuesAt(axes[|prefix|..], r) == prefix;
    } else {
      assert axes[|prefix|..][0] == axes[|prefix|] && axes[|prefix|..][1..] == axes[|prefix| + 1..];
      var v := axes[|prefix|].values[r[0]];
      PointsAreProduct(base, axes, prefix + [v], r[1..]);
      PointsAtNode(base, axes, prefix, r);
    }
  }

  lemma PointsAtNode(base: Params, axes: seq<Axis>, prefix: seq<real>, r: seq<nat>)
    requires |prefix| < |axes| && ValidRanks(axes[|prefix|..], r)
    requires r[0] < |axes[|prefix|].values| && ValidRanks(axes[|prefix| + 1..], r[1..])
    requires var next := prefix + [axes[|prefix|].values[r[0]]];
      var m := Number(axes[|prefix| + 1..], r[1..]);
      && m < |Points(base, axes, next)|
      && Points(base, axes, next)[m] == Overlay(base, axes, next + ValuesAt(axes[|prefix| + 1..], r[1..]))
    ensures var n := Number(axes[|prefix|..], r);
      && n < |Points(base, axes, prefix)|
      && Points(base, axes, prefix)[n] == Overlay(base, axes, prefix + ValuesAt(axes[|prefix|..], r))
  {
    var rest := axes[|prefix|..];
    assert rest[1..] == axes[|prefix| + 1..];
    NumberBelowSize(rest[1..], r[1..]);
    PointsUpToContains(base, axes, prefix, |axes[|prefix|].values|, r[0], Number(rest[1..], r[1..]));
    ValuesSplit(rest, r, prefix);
  }

  lemma ValuesSplit(axes: seq<Axis>, r: seq<nat>, prefix: seq<real>)
    requires axes != [] && ValidRanks(axes, r)
    ensures (prefix + [axes[0].values[r[0]]]) + ValuesAt(axes[1..], r[1..]) == prefix + ValuesAt(axes, r)
  {
    assert ValuesAt(axes, r) == [axes[0].values[r[0]]] + ValuesAt(axes[1..], r[1..]);
  }

  lemma {:induction false} PointsUpToContains(base: Params, axes: seq<Axis>, prefix: seq<real>, k: nat, i: nat, m: nat)
    requires |prefix| < |axes| && i < k <= |axes[|prefix|].values| && m < Size(axes[|prefix| + 1..])
    ensures var n := Blocks(i, Size(axes[|prefix| + 1..])) + m;
      var below := Points(base, axes, prefix + [axes[|prefix|].values[i]]);
      && n < |PointsUpTo(base, axes, prefix, k)| && m < |below|
      && PointsUpTo(base, axes, prefix, k)[n] == below[m]
    decreases k
  {
    var s := Size(axes[|prefix| + 1..]);
    PointsUpToSize(base, axes, prefix, k - 1);
    PointsSize(base, axes, prefix + [axes[|prefix|].values[k - 1]]);
    if i < k - 1 {
      BlocksOrdered(i, k - 1, s);
      PointsUpToContains(base, axes, prefix, k - 1, i, m);
    }
  }

  // ---------------------------------------------------------------- the walk

  function First<T>(s: seq<T>, n: int): seq<T> {
    s[..Max(0, Min(|s|, n))]
  }

  lemma FirstOfConcat<T>(a: seq<T>, b: seq<T>, n: int)
    requires n >= 0
    ensures First(a + b, n) == First(a, n) + First(b, n - |First(a, n)|)
    ensures |First(a, n)| == Min(|a|, n)
  {
  }

  /** The shared dict at a node of the walk: the prefix is written, later axes may hold leftovers, and nothing
      else differs from the base. */
  ghost predicate Carries(current: Params, base: Params, axes: seq<Axis>, prefix: seq<real>)
    requires |prefix| <= |axes|
  {
    && (forall j :: 0 <= j < |prefix| ==> axes[j].key in current && current[axes[j].key] == prefix[j])
    && current - AxisKeys(axes) == base - AxisKeys(axes)
  }

  function AxisKeys(axes: seq<Axis>): set<string> {
    set a | a in axes :: a.key
  }

  lemma OtherKeysAgree(current: Params, base: Params, axes: seq<Axis>, k: string)
    requires current - AxisKeys(axes) == base - AxisKeys(axes) && forall j :: 0 <= j < |axes| ==> axes[j].key != k
    ensures (k in current <==> k in base) && (k in base ==> current[k] == base[k])
  {
    assert k !in AxisKeys(axes);
    assert k in current <==> k in current - AxisKeys(axes);
    assert k in base <==> k in base - AxisKeys(axes);
  }

  lemma {:induction false} OverlayAt(base: Params, axes: seq<Axis>, v: seq<real>, k: string)
    requires DistinctKeys(axes) && |v| <= |axes|
    ensures forall j :: 0 <= j < |v| && axes[j].key == k ==> k in Overlay(base, axes, v) && Overlay(base, axes, v)[k] == v[j]
    ensures (forall j :: 0 <= j < |v| ==> axes[j].key != k) ==>
      (k in Overlay(base, axes, v) <==> k in base) && (k in base ==> Overlay(base, axes, v)[k] == base[k])
  {
    if v != [] {
      OverlayAt(base, axes, v[..|v| - 1], k);
    }
  }

  /** At a leaf there are no leftovers. */
  lemma LeafIsOverlay(current: Params, base: Params, axes: seq<Axis>, prefix: seq<real>)
    requires DistinctKeys(axes) && |prefix| == |axes| && Carries(current, base, axes, prefix)
    ensures current == Overlay(base, axes, prefix)
  {
    var o := Overlay(base, axes, prefix);
    forall k ensures k in current <==> k in o
      ensures k in current && k in o ==> current[k] == o[k]
    {
      OverlayAt(base, axes, prefix, k);
      if forall j :: 0 <= j < |axes| ==> axes[j].key != k {
        OtherKeysAgree(current, base, axes, k);
      }
    }
  }

  function Evaluate(f: Params -> Scores, points: seq<Params>): (r: seq<SweepResult>)
    ensures |r| == |points|
  {
    seq(|points|, i requires 0 <= i < |points| => SweepResult(points[i], f(points[i])))
  }

  /** The earlier results, and then evaluations of the first points until the quota is full. */
  function Filled(f: Params -> Scores, earlier: seq<SweepResult>, points: seq<Params>, quota: int): seq<SweepResult> {
    earlier + Evaluate(f, First(points, quota))
  }

  lemma EvaluateConcat(f: Params -> Scores, a: seq<Params>, b: seq<Params>)
    ensures Evaluate(f, a + b) == Evaluate(f, a) + Evaluate(f, b)
  {
  }

  lemma NoQuota(f: Params -> Scores, earlier: seq<SweepResult>, points: seq<Params>, quota: int)
    requires quota <= 0
    ensures Filled(f, earlier, points, quota) == earlier
  {
  }

  lemma OneResult(f: Params -> Scores, earlier: seq<SweepResult>, p: Params, quota: int)
    requires quota > 0
    ensures Filled(f, earlier, [p], quota) == earlier + [SweepResult(p, f(p))]
  {
    assert First([p], quota) == [p];
  }

  /** Filling the quota from two stretches of points one after the other is filling it from both. */
  lemma MoreResults(f: Params -> Scores, earlier: seq<SweepResult>, a: seq<Params>, b: seq<Params>, quota: int,
      room: int)
    requires quota >= 0 && room == |earlier| + quota - |Filled(f, earlier, a, quota)|
    ensures Filled(f, Filled(f, earlier, a, quota), b, room) == Filled(f, earlier, a + b, quota)
  {
    FirstOfConcat(a, b, quota);
    var x, y := First(a, quota), First(b, quota - |First(a, quota)|);
    EvaluateConcat(f, x, y);
    assert (earlier + Evaluate(f, x)) + Evaluate(f, y) == earlier + (Evaluate(f, x) + Evaluate(f, y));
  }

  class Sweep {
    const axes: seq<Axis>
    const evaluate: Params -> Scores
    const maxCombinations: int
    var results: seq<SweepResult>
    var current: Params

    constructor (base: Params, axes: seq<Axis>, evaluate: Params -> Scores, maxCombinations: int)
      ensures this.axes == axes && this.evaluate == evaluate && this.maxCombinations == maxCombinations
      ensures results == [] && current == base
    {
      this.axes, this.evaluate, this.maxCombinations := axes, evaluate, maxCombinations;
      results, current := [], base;
    }

    /** The walk below a prefix appends the evaluations of the points below it, in order, until the quota
        is full; it may leave anything in the later axes of the shared dict. */
    method Walk(idx: nat, ghost base: Params, ghost prefix: seq<real>)
      requires DistinctKeys(axes) && idx == |prefix| <= |axes| && Carries(current, base, axes, prefix)
      modifies this
      ensures Carries(current, base, axes, prefix)
      ensures results == Filled(evaluate, old(results), Points(base, axes, prefix), maxCombinations - |old(results)|)
      decreases |axes| - idx, 1
    {
      ghost var before, quota := results, maxCombinations - |results|;
      if |results| >= maxCombinations {
        NoQuota(evaluate, results, Points(base, axes, prefix), quota);
        return;
      }
      if idx >= |axes| {
        LeafIsOverlay(current, base, axes, prefix);
        OneResult(evaluate, results, current, quota);
        results := results + [SweepResult(current, evaluate(current))];
        return;
      }
      var i := 0;
      while i < |axes[idx].values|
        invariant 0 <= i <= |axes[idx].values| && Carries(current, base, axes, prefix)
        invariant results == Filled(evaluate, before, PointsUpTo(base, axes, prefix, i), quota)
      {
        Descend(idx, i, base, prefix, before);
        i := i + 1;
        if |results| >= maxCombinations {
          return;
        }
      }
    }

    /** One round of the loop: write the next value into the shared dict, and walk on below it. */
    method Descend(idx: nat, i: nat, ghost base: Params, ghost prefix: seq<real>, ghost before: seq<SweepResult>)
      requires DistinctKeys(axes) && idx == |prefix| < |axes| && i < |axes[idx].values|
      requires Carries(current, base, axes, prefix) && maxCombinations - |before| > 0
      requires results == Filled(evaluate, before, PointsUpTo(base, axes, prefix, i), maxCombinations - |before|)
      modifies this
      ensures Carries(current, base, axes, prefix)
      ensures results == Filled(evaluate, before, PointsUpTo(base, axes, prefix, i + 1), maxCombinations - |before|)
      ensures |results| >= maxCombinations ==>
        results == Filled(evaluate, before, Points(base, axes, prefix), maxCombinations - |before|)
      decreases |axes| - idx, 0
    {
      var key, value := axes[idx].key, axes[idx].values[i];
      ghost var mid := results;
      CarriesNext(current, key, base, axes, prefix, value);
      current := current[key := value];
      Walk(idx + 1, base, prefix + [value]);
      CarriesShorter(current, base, axes, prefix, value);
      ValueDone(evaluate, maxCombinations, base, axes, prefix, i, before, mid, results);
    }
  }

  /** The points below one more value fill more of the quota; once it is full, the remaining values add nothing. */
  lemma ValueDone(f: Params -> Scores, limit: int, base: Params, axes: seq<Axis>, prefix: seq<real>, i: nat,
      before: seq<SweepResult>, mid: seq<SweepResult>, after: seq<SweepResult>)
    requires |prefix| < |axes| && i < |axes[|prefix|].values| && limit - |before| > 0
    requires mid == Filled(f, before, PointsUpTo(base, axes, prefix, i), limit - |before|)
    requires after == Filled(f, mid, Points(base, axes, prefix + [axes[|prefix|].values[i]]), limit - |mid|)
    ensures after == Filled(f, before, PointsUpTo(base, axes, prefix, i + 1), limit - |before|)
    ensures |after| >= limit ==> after == Filled(f, before, Points(base, axes, prefix), limit - |before|)
  {
    var below := Points(base, axes, prefix + [axes[|prefix|].values[i]]);
    MoreResults(f, before, PointsUpTo(base, axes, prefix, i), below, limit - |before|, limit - |mid|);
    QuotaFull(base, axes, prefix, i + 1, limit - |before|, before, after, f);
  }

  lemma CarriesNext(current: Params, key: string, base: Params, axes: seq<Axis>, prefix: seq<real>, v: real)
    requires DistinctKeys(axes) && |prefix| < |axes| && axes[|prefix|].key == key
    requires Carries(current, base, axes, prefix)
    ensures Carries(current[key := v], base, axes, prefix + [v])
  {
    assert axes[|prefix|] in axes;
    assert current[key := v] - AxisKeys(axes) == current - AxisKeys(axes);
  }

  lemma CarriesShorter(current: Params, base: Params, axes: seq<Axis>, prefix: seq<real>, v: real)
    requires |prefix| < |axes| && Carries(current, base, axes, prefix + [v])
    ensures Carries(current, base, axes, prefix)
  {
    assert forall j :: 0 <= j < |prefix| ==> (prefix + [v])[j] == prefix[j];
  }

  /** PointsUpTo grows with k. */
  lemma {:induction false} PointsPrefix(base: Params, axes: seq<Axis>, prefix: seq<real>, k: nat, n: nat)
    requires |prefix| < |axes| && k <= n <= |axes[|prefix|].values|
    ensures PointsUpTo(base, axes, prefix, k) <= PointsUpTo(base, axes, prefix, n)
    decreases n
  {
    if k < n {
      PointsPrefix(base, axes, prefix, k, n - 1);
    }
  }

  /** Once the quota is full, the remaining values add nothing. */
  lemma QuotaFull(base: Params, axes: seq<Axis>, prefix: seq<real>, k: nat, quota: int,
      earlier: seq<SweepResult>, results: seq<SweepResult>, f: Params -> Scores)
    requires |prefix| < |axes| && k <= |axes[|prefix|].values| && quota > 0
    requires results == Filled(f, earlier, PointsUpTo(base, axes, prefix, k), quota)
    ensures |results| >= |earlier| + quota ==> results == Filled(f, earlier, Points(base, axes, prefix), quota)
  {
    PointsPrefix(base, axes, prefix, k, |axes[|prefix|].values|);
  }

  /** The sweep of a non-empty space evaluates the first points, up to the quota; an empty space evaluates the
      candidate alone, whatever the quota. */
  function Swept(base: Params, axes: seq<Axis>, evaluate: Params -> Scores, maxCombinations: int): seq<SweepResult> {
    if axes == [] then [SweepResult(base, evaluate(base))]
    else Evaluate(evaluate, First(Points(base, axes, []), maxCombinations))
  }

  method Run(base: Params, axes: seq<Axis>, evaluate: Params -> Scores, maxCombinations: int)
    returns (results: seq<SweepResult>)
    requires DistinctKeys(axes)
    ensures results == Swept(base, axes, evaluate, maxCombinations)
    ensures axes == [] ==> results == [SweepResult(base, evaluate(base))]
    ensures axes != [] ==> |results| <= Max(0, maxCombinations)
  {
    if axes == [] {
      return [SweepResult(base, evaluate(base))];
    }
    var s := new Sweep(base, axes, evaluate, maxCombinations);
    s.Walk(0, base, []);
    results := s.results;
  }

  /** The results are, in order, exactly the first min(maxCombinations, size) members of the lexicographic
      product, each overlaid on the candidate's own parameters and evaluated. */
  lemma SweptIsLexicographicPrefix(
      base: Params, axes: seq<Axis>, evaluate: Params -> Scores, maxCombinations: int, r: seq<nat>)
    requires axes != [] && ValidRanks(axes, r)
    ensures var results := Swept(base, axes, evaluate, maxCombinations);
      && |results| == Max(0, Min(maxCombinations, Size(axes)))
      && Number(axes, r) < Size(axes)
      && (Number(axes, r) < |results| ==>
            var p := Overlay(base, axes, ValuesAt(axes, r));
            results[Number(axes, r)] == SweepResult(p, evaluate(p)))
  {
    AllPoints(base, axes, r);
    var n, points := Number(axes, r), Points(base, axes, []);
    var kept := First(points, maxCombinations);
    FirstAt(points, maxCombinations, n);
    if n < |kept| {
      assert Evaluate(evaluate, kept)[n] == SweepResult(kept[n], evaluate(kept[n]));
    }
  }

  /** The points of the whole space. */
  lemma AllPoints(base: Params, axes: seq<Axis>, r: seq<nat>)
    requires ValidRanks(axes, r)
    ensures var points := Points(base, axes, []);
      && Number(axes, r) < Size(axes) == |points|
      && points[Number(axes, r)] == Overlay(base, axes, ValuesAt(axes, r))
  {
    assert axes[0..] == axes;
    PointsSize(base, axes, []);
    NumberBelowSize(axes, r);
    PointsAreProduct(base, axes, [], r);
    assert [] + ValuesAt(axes, r) == ValuesAt(axes, r);
  }

  lemma FirstAt<T>(s: seq<T>, n: int, i: nat)
    ensures |First(s, n)| == Max(0, Min(|s|, n))
    ensures i < |First(s, n)| ==> i < |s| && First(s, n)[i] == s[i]
  {
  }

  lemma BlocksCancel(a: nat, k: nat, s: nat)
    requires Blocks(a, s) < Blocks(k, s)
    ensures s > 0 && a < k
  {
    assert a * s < k * s;
  }

  lemma DivideBlocks(n: nat, k: nat, s: nat)
    requires n < Blocks(k, s)
    ensures s > 0 && n / s < k && n % s < s && Blocks(n / s, s) + n % s == n
  {
    BlocksCancel(0, k, s);
    assert n == (n / s) * s + n % s;
    BlocksCancel(n / s, k, s);
  }

  /** Every position of the product is the number of exactly one index vector. */
  lemma {:induction false} EveryPositionIsNumbered(axes: seq<Axis>, n: nat) returns (r: seq<nat>)
    requires n < Size(axes)
    ensures ValidRanks(axes, r) && Number(axes, r) == n
  {
    if axes == [] {
      r := [];
    } else {
      var s := Size(axes[1..]);
      DivideBlocks(n, |axes[0].values|, s);
      var rest := EveryPositionIsNumbered(axes[1..], n % s);
      r := [n / s] + rest;
      assert r[1..] == rest;
    }
  }
}

/** Maximum drawdown in one pass, as the paper-trading scorecard (cryptoswarms/paper_trading.py) and the dashboard
    (cryptoswarms/dashboard_insights.py) each compute it. The reference is the definition over all pairs of
    moments: the deepest fall of the running total from an earlier moment to a later one, the start included. */
module Drawdown {
  import opened Common

  /** The running total after all of v. */
  function Total(v: seq<real>): real {
    if v == [] then 0.0 else Total(v[..|v| - 1]) + v[|v| - 1]
  }

  /** The running totals at every moment: before the first value, and after each. */
  function Curve(v: seq<real>): (c: seq<real>)
    ensures |c| == |v| + 1
  {
    seq(|v| + 1, i requires 0 <= i <= |v| => Total(v[..i]))
  }

  /** x is the highest total of a curve. */
  ghost predicate IsPeak(c: seq<real>, x: real) {
    x in c && forall i :: 0 <= i < |c| ==> c[i] <= x
  }

  ghost predicate IsTrough(c: seq<real>, x: real) {
    x in c && forall i :: 0 <= i < |c| ==> x <= c[i]
  }

  /** d is the largest fall from a moment of a curve to the same or a later one. */
  ghost predicate IsMaxDrawdown(c: seq<real>, d: real) {
    && (forall i, j :: 0 <= i <= j < |c| ==> c[i] - c[j] <= d)
    && (exists i, j :: 0 <= i <= j < |c| && c[i] - c[j] == d)
  }

  lemma CurveGrows(v: seq<real>, n: nat)
    requires n < |v|
    ensures Curve(v[..n + 1]) == Curve(v[..n]) + [Curve(v[..n])[n] + v[n]]
  {
    var c := Curve(v[..n + 1]);
    assert v[..n + 1][..n + 1] == v[..n + 1] && v[..n + 1][..n] == v[..n] && v[..n][..n] == v[..n];
    forall i | 0 <= i <= n ensures c[i] == Curve(v[..n])[i] {
      assert v[..n + 1][..i] == v[..n][..i];
    }
  }

  lemma PeakGrows(c: seq<real>, x: real, peak: real)
    requires IsPeak(c, peak)
    ensures IsPeak(c + [x], MaxReal(peak, x))
  {
    var e := c + [x];
    assert e[|c|] == x;
    var p :| 0 <= p < |c| && c[p] == peak;
    assert e[p] == peak;
  }

  /** A new moment can only be the bottom of a fall from the highest moment so far. */
  lemma FallsGrow(c: seq<real>, x: real, top: real, d: real)
    requires IsPeak(c + [x], top) && IsMaxDrawdown(c, d)
    ensures IsMaxDrawdown(c + [x], MaxReal(d, top - x))
  {
    var e := c + [x];
    var t :| 0 <= t < |e| && e[t] == top;
    var i, j :| 0 <= i <= j < |c| && c[i] - c[j] == d;
    assert e[t] - e[|c|] == top - x && e[i] - e[j] == d;
    forall k, l | 0 <= k <= l < |e| ensures e[k] - e[l] <= MaxReal(d, top - x) {
      assert l < |c| ==> e[k] - e[l] == c[k] - c[l];
      assert l == |c| ==> e[l] == x && e[k] <= top;
    }
  }

  /** The loop state after n values. */
  ghost predicate Tracks(v: seq<real>, n: nat, cumulative: real, peak: real, d: real) {
    && n <= |v| && cumulative == Curve(v[..n])[n]
    && IsPeak(Curve(v[..n]), peak) && IsMaxDrawdown(Curve(v[..n]), d)
  }

  lemma TracksNothing(v: seq<real>)
    ensures Tracks(v, 0, 0.0, 0.0, 0.0)
  {
    assert Curve(v[..0])[0] - Curve(v[..0])[0] == 0.0;
  }

  lemma TracksOneMore(v: seq<real>, n: nat, cumulative: real, peak: real, d: real)
    requires n < |v| && Tracks(v, n, cumulative, peak, d)
    ensures var x := cumulative + v[n];
      Tracks(v, n + 1, x, MaxReal(peak, x), MaxReal(d, MaxReal(peak, x) - x))
  {
    var c, x := Curve(v[..n]), cumulative + v[n];
    CurveGrows(v, n);
    PeakGrows(c, x, peak);
    FallsGrow(c, x, MaxReal(peak, x), d);
  }

  /** The scorecard's copy. */
  method MaxDrawdown(values: seq<real>) returns (maxDd: real)
    ensures IsMaxDrawdown(Curve(values), maxDd)
  {
    var cumulative, peak := 0.0, 0.0;
    maxDd := 0.0;
    TracksNothing(values);
    for n := 0 to |values|
      invariant Tracks(values, n, cumulative, peak, maxDd)
    {
      TracksOneMore(values, n, cumulative, peak, maxDd);
      cumulative := cumulative + values[n];
      peak := MaxReal(peak, cumulative);
      var dd := peak - cumulative;
      if dd > maxDd {
        maxDd := dd;
      }
    }
    assert values[..|values|] == values;
  }

  /** The dashboard's copy, before the figure is rounded for display. */
  method DashboardMaxDrawdown(pnlSeries: seq<real>) returns (maxDrawdown: real)
    ensures IsMaxDrawdown(Curve(pnlSeries), maxDrawdown)
  {
    var cumulative, peak := 0.0, 0.0;
    maxDrawdown := 0.0;
    TracksNothing(pnlSeries);
    for n := 0 to |pnlSeries|
      invariant Tracks(pnlSeries, n, cumulative, peak, maxDrawdown)
    {
      TracksOneMore(pnlSeries, n, cumulative, peak, maxDrawdown);
      cumulative := cumulative + pnlSeries[n];
      peak := MaxReal(peak, cumulative);
      var drawdown := peak - cumulative;
      if drawdown > maxDrawdown {
        maxDrawdown := drawdown;
      }
    }
    assert pnlSeries[..|pnlSeries|] == pnlSeries;
  }

  /** The reference determines the figure, so two computations that meet it agree. */
  lemma CopiesAgree(v: seq<real>, paper: real, dashboard: real)
    requires IsMaxDrawdown(Curve(v), paper) && IsMaxDrawdown(Curve(v), dashboard)
    ensures paper == dashboard >= 0.0
  {
    assert Curve(v)[0] - Curve(v)[0] <= paper;
  }

  /** A single result moves the total by itself: a loss is a drawdown of its size, a gain is none. */
  lemma DrawdownOfOne(x: real)
    ensures Curve([x]) == [0.0, x] && IsMaxDrawdown(Curve([x]), MaxReal(0.0, -x))
  {
    var v, c := [x], Curve([x]);
    assert v[..0] == [] && v[..1] == v && v[..|v| - 1] == [];
    assert Total(v) == Total(v[..|v| - 1]) + v[|v| - 1];
    assert c == [0.0, x];
    assert c[0] - c[0] == 0.0 && c[0] - c[1] == -x && c[1] - c[1] == 0.0;
  }

  // ---------------------------------------------------------------- two periods in a row

  lemma {:induction false} TotalConcat(a: seq<real>, b: seq<real>)
    ensures Total(a + b) == Total(a) + Total(b)
  {
    if b == [] {
      assert a + b == a;
    } else {
      assert (a + b)[..|a + b| - 1] == a + b[..|b| - 1];
      TotalConcat(a, b[..|b| - 1]);
    }
  }

  /** c runs through a, and then through b shifted to start where a ends. */
  ghost predicate Joined(a: seq<real>, b: seq<real>, c: seq<real>) {
    && a != [] && b != [] && |c| == |a| + |b| - 1
    && (forall i :: 0 <= i < |a| ==> c[i] == a[i])
    && (forall i :: |a| - 1 <= i < |c| ==> c[i] == a[|a| - 1] + b[i - (|a| - 1)])
  }

  lemma CurvesJoin(a: seq<real>, b: seq<real>)
    ensures Joined(Curve(a), Curve(b), Curve(a + b))
  {
    var c := Curve(a + b);
    assert a[..|a|] == a;
    forall i | 0 <= i <= |a| ensures c[i] == Curve(a)[i] {
      assert (a + b)[..i] == a[..i];
    }
    forall i | |a| <= i <= |a + b| ensures c[i] == Total(a) + Curve(b)[i - |a|] {
      assert (a + b)[..i] == a + b[..i - |a|];
      TotalConcat(a, b[..i - |a|]);
    }
  }

  lemma FallsOfJoin(a: seq<real>, b: seq<real>, c: seq<real>, da: real, db: real, peak: real, trough: real, d: real)
    requires Joined(a, b, c)
    requires IsMaxDrawdown(a, da) && IsMaxDrawdown(b, db) && IsPeak(a, peak) && IsTrough(b, trough)
    requires IsMaxDrawdown(c, d)
    ensures d <= da || d <= db || d <= peak - (a[|a| - 1] + trough)
  {
    var i, j :| 0 <= i <= j < |c| && c[i] - c[j] == d;
    var m := |a| - 1;
    if j <= m {
      assert a[i] - a[j] <= da;
    } else if i >= m {
      assert b[i - m] - b[j - m] <= db;
    } else {
      assert a[i] <= peak && trough <= b[j - m];
    }
  }

  lemma FirstInJoin(a: seq<real>, b: seq<real>, c: seq<real>, da: real, d: real)
    requires Joined(a, b, c) && IsMaxDrawdown(a, da) && IsMaxDrawdown(c, d)
    ensures da <= d
  {
    var i, j :| 0 <= i <= j < |a| && a[i] - a[j] == da;
    assert c[i] - c[j] <= d;
  }

  lemma SecondInJoin(a: seq<real>, b: seq<real>, c: seq<real>, db: real, d: real)
    requires Joined(a, b, c) && IsMaxDrawdown(b, db) && IsMaxDrawdown(c, d)
    ensures db <= d
  {
    var m := |a| - 1;
    var k, l :| 0 <= k <= l < |b| && b[k] - b[l] == db;
    assert c[m + k] - c[m + l] <= d;
  }

  lemma AcrossJoin(a: seq<real>, b: seq<real>, c: seq<real>, peak: real, trough: real, d: real)
    requires Joined(a, b, c) && IsPeak(a, peak) && IsTrough(b, trough) && IsMaxDrawdown(c, d)
    ensures peak - (a[|a| - 1] + trough) <= d
  {
    var p :| 0 <= p < |a| && a[p] == peak;
    var q :| 0 <= q < |b| && b[q] == trough;
    assert c[p] - c[|a| - 1 + q] <= d;
  }

  lemma DrawdownOfJoin(
      a: seq<real>, b: seq<real>, c: seq<real>, da: real, db: real, peak: real, trough: real, d: real, last: real)
    requires Joined(a, b, c) && last == a[|a| - 1]
    requires IsMaxDrawdown(a, da) && IsMaxDrawdown(b, db) && IsPeak(a, peak) && IsTrough(b, trough)
    requires IsMaxDrawdown(c, d)
    ensures d >= da && d >= db && d >= peak - (last + trough)
    ensures d == da || d == db || d == peak - (last + trough)
  {
    FallsOfJoin(a, b, c, da, db, peak, trough, d);
    FirstInJoin(a, b, c, da, d);
    SecondInJoin(a, b, c, db, d);
    AcrossJoin(a, b, c, peak, trough, d);
  }

  /** The drawdown of two periods in a row: the worse of the two, or the fall from the first period's peak to the
      second one's trough. In particular it is at least that of either period. */
  lemma DrawdownOfConcatenation(a: seq<real>, b: seq<real>, da: real, db: real, peak: real, trough: real, d: real)
    requires IsMaxDrawdown(Curve(a), da) && IsMaxDrawdown(Curve(b), db)
    requires IsPeak(Curve(a), peak) && IsTrough(Curve(b), trough)
    requires IsMaxDrawdown(Curve(a + b), d)
    ensures d >= da && d >= db && d >= peak - (Total(a) + trough)
    ensures d == da || d == db || d == peak - (Total(a) + trough)
  {
    CurvesJoin(a, b);
    assert a[..|a|] == a;
    DrawdownOfJoin(Curve(a), Curve(b), Curve(a + b), da, db, peak, trough, d, Total(a));
  }
}

/** The hill-climbing optimiser (agents/evolution/deap_nightly.py): every generation scores the current
    parameters and their one-parameter neighbours, moves to the best, and remembers the best two; the run returns
    the best five of everything remembered, without repeats. */
module NightlyOptimizer {
  import opened Common
  import opened StableSort

  /** A parameter dict: its items in the order of the dict. The keys of a run never change, so two dicts of a run
      are equal exactly when their items are. */
  type Params = seq<(string, real)>

  datatype Candidate = Candidate(params: Params, score: real)

  /** The sort key of `reverse=True`. */
  function Descending(c: Candidate): real {
    -c.score
  }

  // ---------------------------------------------------------------- one generation

  function WithSlippage(params: Params, slippage: real): Params {
    if params == [] then [("slippage", slippage)]
    else if params[0].0 == "slippage" then [("slippage", slippage)] + params[1..]
    else [params[0]] + WithSlippage(params[1..], slippage)
  }

  /** One parameter moved up by the step, as a share of its value. */
  function MovedUp(params: Params, step: real, i: nat): (r: Params)
    requires i < |params|
    ensures |r| == |params| && r[i].0 == params[i].0 && r[i].1 - params[i].1 == params[i].1 * step
    ensures forall j :: 0 <= j < |params| && j != i ==> r[j] == params[j]
  {
    params[i := (params[i].0, params[i].1 * (1.0 + step))]
  }

  function MovedDown(params: Params, step: real, i: nat): (r: Params)
    requires i < |params|
    ensures |r| == |params| && r[i].0 == params[i].0 && params[i].1 - r[i].1 == params[i].1 * step
    ensures forall j :: 0 <= j < |params| && j != i ==> r[j] == params[j]
  {
    params[i := (params[i].0, params[i].1 * (1.0 - step))]
  }

  /** The current parameters, then each of the first n moved up and moved down. */
  function Neighbours(params: Params, step: real, n: nat): (r: seq<Params>)
    requires n <= |params|
    ensures r != [] && r[0] == params
  {
    if n == 0 then [params]
    else Neighbours(params, step, n - 1) + [MovedUp(params, step, n - 1), MovedDown(params, step, n - 1)]
  }

  /** The parameters, and every single one of them moved up and moved down, in the order of the dict; nothing else. */
  ghost predicate Moves(params: Params, step: real, n: nat, variants: seq<Params>)
    requires n <= |params|
  {
    && |variants| == 2 * n + 1 && variants[0] == params
    && forall i: nat :: i < n ==>
         variants[2 * i + 1] == MovedUp(params, step, i) && variants[2 * i + 2] == MovedDown(params, step, i)
  }

  lemma {:induction false} NeighboursAreMoves(params: Params, step: real, n: nat)
    requires n <= |params|
    ensures Moves(params, step, n, Neighbours(params, step, n))
  {
    if n > 0 {
      NeighboursAreMoves(params, step, n - 1);
      var front := Neighbours(params, step, n - 1);
      MovesOneMore(params, step, n - 1, front);
    }
  }

  lemma MovesOneMore(params: Params, step: real, n: nat, front: seq<Params>)
    requires n < |params| && Moves(params, step, n, front)
    ensures Moves(params, step, n + 1, front + [MovedUp(params, step, n), MovedDown(params, step, n)])
  {
    var all := front + [MovedUp(params, step, n), MovedDown(params, step, n)];
    forall i: nat | i < n + 1
      ensures all[2 * i + 1] == MovedUp(params, step, i) && all[2 * i + 2] == MovedDown(params, step, i)
    {
      if i < n {
        assert front[2 * i + 1] == MovedUp(params, step, i) && front[2 * i + 2] == MovedDown(params, step, i);
      }
    }
  }

  /** The slippage comes last if there is no entry of that name. */
  lemma {:induction false} SlippageAppended(params: Params, slippage: real)
    requires forall i :: 0 <= i < |params| ==> params[i].0 != "slippage"
    ensures WithSlippage(params, slippage) == params + [("slippage", slippage)]
  {
    if params != [] {
      SlippageAppended(params[1..], slippage);
      Regroup([params[0]], params[1..], [("slippage", slippage)]);
      assert params == [params[0]] + params[1..];
    }
  }

  /** Otherwise it replaces that entry in its place. */
  lemma {:induction false} SlippageReplaced(params: Params, i: nat, slippage: real)
    requires i < |params| && params[i].0 == "slippage" && forall j :: 0 <= j < i ==> params[j].0 != "slippage"
    ensures WithSlippage(params, slippage) == params[i := ("slippage", slippage)]
  {
    if i > 0 {
      assert forall j :: 0 <= j < i - 1 ==> params[1..][j] == params[j + 1];
      SlippageReplaced(params[1..], i - 1, slippage);
      assert [params[0]] + params[1..][i - 1 := ("slippage", slippage)] == params[i := ("slippage", slippage)];
    } else {
      assert [("slippage", slippage)] + params[1..] == params[0 := ("slippage", slippage)];
    }
  }

  /** What a search is about: the fields of the optimiser and the arguments of its run. */
  datatype Setting = Setting(f: Params -> real, slippage: real, step: real)

  function Score(t: Setting, p: Params): real {
    t.f(WithSlippage(p, t.slippage))
  }

  function Scored(t: Setting, ps: seq<Params>): (r: seq<Candidate>)
    ensures |r| == |ps|
  {
    seq(|ps|, i requires 0 <= i < |ps| => Candidate(ps[i], Score(t, ps[i])))
  }

  /** Everything one generation evaluates. */
  function Tried(t: Setting, current: Params): (r: seq<Candidate>)
    ensures r != [] && r[0] == Candidate(current, Score(t, current))
  {
    Scored(t, Neighbours(current, t.step, |current|))
  }

  function Ranked(t: Setting, current: Params): (r: seq<Candidate>)
    ensures r != []
  {
    Sort(Descending, Tried(t, current))
  }

  function Next(t: Setting, current: Params): Params {
    Ranked(t, current)[0].params
  }

  function FirstFew<T>(s: seq<T>, n: nat): (r: seq<T>)
    ensures |r| == Min(|s|, n) && r <= s
  {
    if |s| <= n then s else s[..n]
  }

  // ---------------------------------------------------------------- a whole run

  function CurrentAfter(t: Setting, start: Params, generations: nat): Params {
    if generations == 0 then start else Next(t, CurrentAfter(t, start, generations - 1))
  }

  /** The best two of every generation, in order. */
  function Remembered(t: Setting, start: Params, generations: nat): seq<Candidate> {
    if generations == 0 then []
    else Remembered(t, start, generations - 1) + FirstFew(Ranked(t, CurrentAfter(t, start, generations - 1)), 2)
  }

  function ParamsOf(s: seq<Candidate>): (r: set<Params>)
    ensures forall p :: p in r <==> exists i :: 0 <= i < |s| && s[i].params == p
  {
    set i | 0 <= i < |s| :: s[i].params
  }

  /** The first candidate of each parameter dict. */
  function Dedup(s: seq<Candidate>): seq<Candidate> {
    if s == [] then []
    else
      var front, last := s[..|s| - 1], s[|s| - 1];
      if last.params in ParamsOf(front) then Dedup(front) else Dedup(front) + [last]
  }

  function Optimised(t: Setting, start: Params, generations: int): seq<Candidate> {
    FirstFew(Dedup(Sort(Descending, Remembered(t, start, Max(0, generations)))), 5)
  }

  lemma OneGeneration(t: Setting, start: Params, g: nat)
    ensures var ranked := Ranked(t, CurrentAfter(t, start, g));
      && CurrentAfter(t, start, g + 1) == ranked[0].params
      && Remembered(t, start, g + 1) == Remembered(t, start, g) + FirstFew(ranked, 2)
  {
  }

  class NightlyOptimizer {
    const scoreFn: Params -> real
    const baseParams: Params
    const slippage: real

    constructor (scoreFn: Params -> real, baseParams: Params, slippage: real)
      ensures this.scoreFn == scoreFn && this.baseParams == baseParams && this.slippage == slippage
    {
      this.scoreFn, this.baseParams, this.slippage := scoreFn, baseParams, slippage;
    }

    function In(step: real): Setting {
      Setting(scoreFn, slippage, step)
    }

    method Mutate(params: Params, step: real) returns (variants: seq<Params>)
      ensures variants == Neighbours(params, step, |params|)
      ensures Moves(params, step, |params|, variants)
    {
      variants := [params];
      for i := 0 to |params|
        invariant variants == Neighbours(params, step, i)
      {
        var up := params[i := (params[i].0, params[i].1 * (1.0 + step))];
        var down := params[i := (params[i].0, params[i].1 * (1.0 - step))];
        variants := variants + [up];
        variants := variants + [down];
      }
      NeighboursAreMoves(params, step, |params|);
    }

    /** The best five of all generations. They beat every move of one base parameter, up or down by the step. */
    method Run(generations: int, step: real) returns (r: seq<Candidate>)
      ensures r == Optimised(In(step), baseParams, generations)
      ensures generations > 0 ==> r != [] && forall i: nat :: i < |baseParams| ==>
        && scoreFn(WithSlippage(MovedUp(baseParams, step, i), slippage)) <= r[0].score
        && scoreFn(WithSlippage(MovedDown(baseParams, step, i), slippage)) <= r[0].score
    {
      var best := Search(generations, step);
      var dedup := Unique(Sort(Descending, best));
      r := FirstFew(dedup, 5);
      if generations > 0 {
        FirstBeatsBase(In(step), baseParams, generations);
      }
    }

    /** The generation loop of the run. */
    method Search(generations: int, step: real) returns (best: seq<Candidate>)
      ensures best == Remembered(In(step), baseParams, Max(0, generations))
    {
      var current := baseParams;
      best := [];
      var g := 0;
      while g < generations
        invariant 0 <= g <= Max(0, generations)
        invariant current == CurrentAfter(In(step), baseParams, g)
        invariant best == Remembered(In(step), baseParams, g)
      {
        var neighborhood := Mutate(current, step);
        var scored := Sort(Descending, Scored(In(step), neighborhood));
        assert scored == Ranked(In(step), current);
        OneGeneration(In(step), baseParams, g);
        current := scored[0].params;
        best := best + FirstFew(scored, 2);
        g := g + 1;
      }
    }

    /** The loop of the run that drops repeats. */
    method Unique(best: seq<Candidate>) returns (dedup: seq<Candidate>)
      ensures dedup == Dedup(best)
    {
      dedup := [];
      var seen: set<Params> := {};
      for i := 0 to |best|
        invariant dedup == Dedup(best[..i]) && seen == ParamsOf(best[..i])
      {
        assert best[..i + 1][..i] == best[..i];
        ParamsOfSnoc(best[..i], best[i]);
        assert best[..i + 1] == best[..i] + [best[i]];
        if best[i].params in seen {
          continue;
        }
        seen := seen + {best[i].params};
        dedup := dedup + [best[i]];
      }
      assert best[..|best|] == best;
    }
  }

  lemma ParamsOfSnoc(s: seq<Candidate>, c: Candidate)
    ensures ParamsOf(s + [c]) == ParamsOf(s) + {c.params}
  {
    assert forall i :: 0 <= i < |s| ==> (s + [c])[i] == s[i];
    assert (s + [c])[|s|] == c;
  }

  // ---------------------------------------------------------------- the climb

  lemma TriedAreScored(t: Setting, current: Params)
    ensures forall c :: c in Tried(t, current) ==> c.score == Score(t, c.params)
  {
  }

  /** The first of a ranking beats everything tried, and on a tie the current parameters stay. */
  lemma RankedFirst(t: Setting, current: Params)
    ensures Ranked(t, current)[0] in Tried(t, current)
    ensures forall c :: c in Tried(t, current) ==> c.score <= Ranked(t, current)[0].score
    ensures Ranked(t, current)[0].score == Score(t, current) ==> Next(t, current) == current
  {
    var tried, r := Tried(t, current), Ranked(t, current);
    SortMembers(Descending, tried);
    SortSorted(Descending, tried);
    assert r[0] in r;
    forall c | c in tried ensures c.score <= r[0].score {
      assert c in r;
      var i :| 0 <= i < |r| && r[i] == c;
      assert i > 0 ==> Descending(r[0]) <= Descending(r[i]);
    }
    SortStable(Descending, tried, Descending(r[0]));
    assert ClassOf(Descending, Descending(r[0]), r)[0] == r[0];
    assert Descending(tried[0]) == Descending(r[0]) ==> ClassOf(Descending, Descending(r[0]), tried)[0] == tried[0];
  }

  lemma NextScore(t: Setting, current: Params)
    ensures Score(t, Next(t, current)) == Ranked(t, current)[0].score
    ensures Score(t, current) <= Score(t, Next(t, current))
    ensures Score(t, Next(t, current)) == Score(t, current) <==> Next(t, current) == current
  {
    RankedFirst(t, current);
    TriedAreScored(t, current);
    assert Tried(t, current)[0] in Tried(t, current);
  }

  /** Each generation's top score is at least the one before. */
  lemma {:induction false} ScoresClimb(t: Setting, start: Params, m: nat, n: nat)
    requires m <= n
    ensures Score(t, CurrentAfter(t, start, m)) <= Score(t, CurrentAfter(t, start, n))
    decreases n
  {
    if m < n {
      ScoresClimb(t, start, m, n - 1);
      NextScore(t, CurrentAfter(t, start, n - 1));
    }
  }

  lemma {:induction false} StaysPut(t: Setting, start: Params, m: nat, n: nat)
    requires m <= n && Next(t, CurrentAfter(t, start, m)) == CurrentAfter(t, start, m)
    ensures CurrentAfter(t, start, n) == CurrentAfter(t, start, m)
    decreases n
  {
    if m < n {
      StaysPut(t, start, m, n - 1);
    }
  }

  /** A generation that does not raise the top score ends the search: nothing moves any more. Every generation
      before that one raises it strictly. */
  lemma ClimbsOrStops(t: Setting, start: Params, m: nat, n: nat)
    requires m < n
    ensures Score(t, CurrentAfter(t, start, m + 1)) > Score(t, CurrentAfter(t, start, m))
      || CurrentAfter(t, start, n) == CurrentAfter(t, start, m)
    ensures CurrentAfter(t, start, n) == CurrentAfter(t, start, m) ==>
      CurrentAfter(t, start, m + 1) == CurrentAfter(t, start, m)
  {
    NextScore(t, CurrentAfter(t, start, m));
    if Next(t, CurrentAfter(t, start, m)) == CurrentAfter(t, start, m) {
      StaysPut(t, start, m, n);
    } else {
      ScoresClimb(t, start, m + 1, n);
    }
  }

  /** What a generation tries: the current parameters, and each of them moved up and moved down by the step. */
  lemma TriedAreMoves(t: Setting, p: Params)
    ensures |Tried(t, p)| == 2 * |p| + 1
    ensures forall i: nat :: i < |p| ==>
      && Candidate(MovedUp(p, t.step, i), Score(t, MovedUp(p, t.step, i))) in Tried(t, p)
      && Candidate(MovedDown(p, t.step, i), Score(t, MovedDown(p, t.step, i))) in Tried(t, p)
    ensures forall c :: c in Tried(t, p) ==> IsMove(t, p, c.params)
  {
    NeighboursAreMoves(p, t.step, |p|);
    var tried, ps := Tried(t, p), Neighbours(p, t.step, |p|);
    forall i: nat | i < |p|
      ensures Candidate(MovedUp(p, t.step, i), Score(t, MovedUp(p, t.step, i))) in tried
      ensures Candidate(MovedDown(p, t.step, i), Score(t, MovedDown(p, t.step, i))) in tried
    {
      assert ps[2 * i + 1] == MovedUp(p, t.step, i) && ps[2 * i + 2] == MovedDown(p, t.step, i);
      assert tried[2 * i + 1].params == ps[2 * i + 1] && tried[2 * i + 2].params == ps[2 * i + 2];
    }
    forall c | c in tried
      ensures IsMove(t, p, c.params)
    {
      var m :| 0 <= m < |tried| && tried[m] == c;
      MoveNumber(t, p, ps, m);
    }
  }

  /** q is p itself, or p with one parameter moved by the step. */
  ghost predicate IsMove(t: Setting, p: Params, q: Params) {
    q == p || (exists i: nat :: i < |p| && q == MovedUp(p, t.step, i)) || exists i: nat :: i < |p| && q == MovedDown(p, t.step, i)
  }

  lemma MoveNumber(t: Setting, p: Params, ps: seq<Params>, m: nat)
    requires Moves(p, t.step, |p|, ps) && m < |ps|
    ensures IsMove(t, p, ps[m])
  {
    if m > 0 {
      var i: nat := (m - 1) / 2;
      assert m == 2 * i + 1 || m == 2 * i + 2;
      assert ps[2 * i + 1] == MovedUp(p, t.step, i) && ps[2 * i + 2] == MovedDown(p, t.step, i);
    }
  }

  /** A generation moves to one of these moves, or not at all, and scores at least as high as all of them; so it stays
      where it is exactly when no single parameter, moved up or down by the step, scores higher. */
  lemma StopsExactlyWhen(t: Setting, p: Params)
    ensures IsMove(t, p, Next(t, p))
    ensures forall i: nat :: i < |p| ==>
      && Score(t, MovedUp(p, t.step, i)) <= Score(t, Next(t, p))
      && Score(t, MovedDown(p, t.step, i)) <= Score(t, Next(t, p))
    ensures Next(t, p) == p <==> forall i: nat :: i < |p| ==>
      && Score(t, MovedUp(p, t.step, i)) <= Score(t, p)
      && Score(t, MovedDown(p, t.step, i)) <= Score(t, p)
  {
    NextScore(t, p);
    RankedFirst(t, p);
    TriedAreMoves(t, p);
    TriedAreScored(t, p);
  }

  /** The keys and their order never change. */
  lemma {:induction false} KeysKept(t: Setting, start: Params, n: nat)
    ensures var p := CurrentAfter(t, start, n);
      |p| == |start| && forall i :: 0 <= i < |start| ==> p[i].0 == start[i].0
  {
    if n > 0 {
      KeysKept(t, start, n - 1);
      StopsExactlyWhen(t, CurrentAfter(t, start, n - 1));
    }
  }

  // ---------------------------------------------------------------- what is returned

  ghost predicate Evaluated(t: Setting, start: Params, generations: int, c: Candidate) {
    exists g :: 0 <= g < generations && c in Tried(t, CurrentAfter(t, start, g))
  }

  lemma {:induction false} RememberedWereTried(t: Setting, start: Params, n: nat)
    ensures forall c :: c in Remembered(t, start, n) ==> Evaluated(t, start, n, c)
  {
    if n > 0 {
      RememberedWereTried(t, start, n - 1);
      OneGeneration(t, start, n - 1);
      var now := CurrentAfter(t, start, n - 1);
      SortMembers(Descending, Tried(t, now));
      forall c | c in Remembered(t, start, n) ensures Evaluated(t, start, n, c) {
        if c in Remembered(t, start, n - 1) {
          assert Evaluated(t, start, n - 1, c);
        } else {
          assert c in Ranked(t, now);
        }
      }
    }
  }

  /** The ranking is what was tried, best first. */
  lemma RankedIsTried(t: Setting, p: Params)
    ensures multiset(Ranked(t, p)) == multiset(Tried(t, p)) && Sorted(Descending, Ranked(t, p))
    ensures |Ranked(t, p)| == 2 * |p| + 1
  {
    SortPermutes(Descending, Tried(t, p));
    SortSorted(Descending, Tried(t, p));
    TriedAreMoves(t, p);
  }

  /** Of every generation exactly the two that rank first are remembered -- the one, if there are no parameters. */
  lemma BestTwoRemembered(t: Setting, start: Params, g: nat)
    ensures var ranked := Ranked(t, CurrentAfter(t, start, g));
      && |ranked| == 2 * |start| + 1
      && Remembered(t, start, g + 1)
           == Remembered(t, start, g) + if start == [] then [ranked[0]] else [ranked[0], ranked[1]]
  {
    var ranked := Ranked(t, CurrentAfter(t, start, g));
    KeysKept(t, start, g);
    RankedIsTried(t, CurrentAfter(t, start, g));
    OneGeneration(t, start, g);
    assert FirstFew(ranked, 2) == if start == [] then [ranked[0]] else [ranked[0], ranked[1]];
  }

  lemma LastIsRemembered(t: Setting, start: Params, n: nat)
    requires n > 0
    ensures Ranked(t, CurrentAfter(t, start, n - 1))[0] in Remembered(t, start, n)
  {
    OneGeneration(t, start, n - 1);
    var ranked := Ranked(t, CurrentAfter(t, start, n - 1));
    assert FirstFew(ranked, 2)[0] == ranked[0];
  }

  ghost predicate DistinctParams(s: seq<Candidate>) {
    forall i, j :: 0 <= i < j < |s| ==> s[i].params != s[j].params
  }

  lemma {:induction false} DedupMembers(s: seq<Candidate>)
    ensures ParamsOf(Dedup(s)) == ParamsOf(s)
    ensures forall c :: c in Dedup(s) ==> c in s
    ensures DistinctParams(Dedup(s))
  {
    if s != [] {
      var front, last := s[..|s| - 1], s[|s| - 1];
      DedupMembers(front);
      assert s == front + [last];
      ParamsOfSnoc(front, last);
      var d := Dedup(front);
      ParamsOfSnoc(d, last);
      forall i | 0 <= i < |d| ensures d[i].params in ParamsOf(front) {
        assert d[i].params in ParamsOf(d);
      }
    }
  }

  lemma {:induction false} DedupSorted(s: seq<Candidate>)
    requires Sorted(Descending, s)
    ensures Sorted(Descending, Dedup(s))
    ensures s != [] ==> Dedup(s) != [] && Dedup(s)[0] == s[0]
  {
    if s != [] {
      var front, last := s[..|s| - 1], s[|s| - 1];
      DedupSorted(front);
      var d := Dedup(front);
      DedupMembers(front);
      forall i | 0 <= i < |d| ensures Descending(d[i]) <= Descending(last) {
        assert d[i] in front;
        var j :| 0 <= j < |front| && front[j] == d[i];
        assert Descending(s[j]) <= Descending(s[|s| - 1]);
      }
    }
  }

  lemma {:induction false} DedupSize(s: seq<Candidate>)
    ensures |Dedup(s)| == |ParamsOf(s)|
  {
    if s != [] {
      var front, last := s[..|s| - 1], s[|s| - 1];
      DedupSize(front);
      assert s == front + [last];
      ParamsOfSnoc(front, last);
      assert last.params in ParamsOf(front) ==> ParamsOf(s) == ParamsOf(front);
    } else {
      assert ParamsOf(s) == {};
    }
  }

  /** The result: sorted, without repeats, only evaluated candidates, as many as there are up to five. */
  lemma ResultShape(t: Setting, start: Params, generations: int)
    ensures var r := Optimised(t, start, generations);
      && Sorted(Descending, r) && DistinctParams(r)
      && |r| == Min(5, |ParamsOf(Remembered(t, start, Max(0, generations)))|)
      && (forall c :: c in r ==> Evaluated(t, start, generations, c))
  {
    var n := Max(0, generations);
    var best := Remembered(t, start, n);
    var sorted := Sort(Descending, best);
    SortSorted(Descending, best);
    SortMembers(Descending, best);
    DedupSorted(sorted);
    DedupMembers(sorted);
    DedupSize(sorted);
    RememberedWereTried(t, start, n);
    assert ParamsOf(sorted) == ParamsOf(best) by {
      SameParams(sorted, best);
    }
    var r := Optimised(t, start, generations);
    forall c | c in r ensures Evaluated(t, start, generations, c) {
      assert c in Dedup(sorted);
      assert c in best;
      assert Evaluated(t, start, n, c);
    }
  }

  /** The result is the top of what is remembered: parameters that are left out score no more than any
      candidate returned, of which there are then five. */
  lemma NothingBetterLeftOut(t: Setting, start: Params, generations: nat, c: Candidate, i: nat)
    requires c in Remembered(t, start, generations) && i < |Optimised(t, start, generations)|
    requires c.params !in ParamsOf(Optimised(t, start, generations))
    ensures c.score <= Optimised(t, start, generations)[i].score && |Optimised(t, start, generations)| == 5
  {
    var best := Remembered(t, start, generations);
    var sorted := Sort(Descending, best);
    SortSorted(Descending, best);
    SortMembers(Descending, best);
    SameParams(sorted, best);
    DedupMembers(sorted);
    DedupSorted(sorted);
    var all := Dedup(sorted);
    var k :| 0 <= k < |best| && best[k] == c;
    assert c.params in ParamsOf(best);
    var m :| 0 <= m < |all| && all[m].params == c.params;
    assert all[m] in all;
    ScoresAgree(t, start, generations, c, all[m]);
    AmongFirst(all, 5, m);
    assert Descending(all[i]) <= Descending(all[m]);
  }

  lemma AmongFirst(s: seq<Candidate>, n: nat, m: nat)
    requires m < |s|
    ensures m < n ==> s[m].params in ParamsOf(FirstFew(s, n))
  {
    assert m < n ==> FirstFew(s, n)[m] == s[m];
  }

  lemma ScoresAgree(t: Setting, start: Params, n: nat, c: Candidate, d: Candidate)
    requires c in Remembered(t, start, n) && d in Remembered(t, start, n) && c.params == d.params
    ensures c.score == d.score
  {
    RememberedWereTried(t, start, n);
    var g :| 0 <= g < n && c in Tried(t, CurrentAfter(t, start, g));
    var h :| 0 <= h < n && d in Tried(t, CurrentAfter(t, start, h));
    TriedAreScored(t, CurrentAfter(t, start, g));
    TriedAreScored(t, CurrentAfter(t, start, h));
  }

  lemma SameParams(a: seq<Candidate>, b: seq<Candidate>)
    requires forall c :: c in a <==> c in b
    ensures ParamsOf(a) == ParamsOf(b)
  {
    forall p ensures p in ParamsOf(a) <==> p in ParamsOf(b) {
      if p in ParamsOf(a) {
        var i :| 0 <= i < |a| && a[i].params == p;
        assert a[i] in b;
      }
      if p in ParamsOf(b) {
        var i :| 0 <= i < |b| && b[i].params == p;
        assert b[i] in a;
      }
    }
  }

  /** The first candidate returned is the best ever evaluated, and it scores what the last generation reached;
      nothing is returned exactly when there was no generation. */
  lemma FirstIsBestEver(t: Setting, start: Params, generations: int)
    ensures Optimised(t, start, generations) == [] <==> generations <= 0
    ensures generations > 0 ==>
      && Evaluated(t, start, generations, Optimised(t, start, generations)[0])
      && Optimised(t, start, generations)[0].score == Score(t, CurrentAfter(t, start, generations))
      && forall c :: Evaluated(t, start, generations, c) ==> c.score <= Optimised(t, start, generations)[0].score
  {
    if generations > 0 {
      RememberedFirst(t, start, generations);
      var best := Remembered(t, start, generations);
      SortSorted(Descending, best);
      DedupSorted(Sort(Descending, best));
      ResultShape(t, start, generations);
      var r := Optimised(t, start, generations);
      assert r[0] == Sort(Descending, best)[0];
      assert r[0] in r;
    }
  }

  lemma FirstScore(t: Setting, start: Params, generations: nat)
    requires generations > 0
    ensures Optimised(t, start, generations) != []
    ensures Optimised(t, start, generations)[0].score == Score(t, CurrentAfter(t, start, generations))
  {
    FirstIsBestEver(t, start, generations);
  }

  lemma NextBeatsMove(t: Setting, p: Params, i: nat)
    requires i < |p|
    ensures Score(t, MovedUp(p, t.step, i)) <= Score(t, Next(t, p)) && Score(t, MovedDown(p, t.step, i)) <= Score(t, Next(t, p))
  {
    StopsExactlyWhen(t, p);
  }

  /** The first candidate returned scores at least as high as every move of one parameter, up or down by the step, from
      any parameters that a generation started from. */
  lemma FirstBeatsMoves(t: Setting, start: Params, generations: nat, g: nat, i: nat)
    requires g < generations && i < |start|
    ensures |CurrentAfter(t, start, g)| == |start| && Optimised(t, start, generations) != []
    ensures var p, first := CurrentAfter(t, start, g), Optimised(t, start, generations)[0];
      Score(t, MovedUp(p, t.step, i)) <= first.score && Score(t, MovedDown(p, t.step, i)) <= first.score
  {
    KeysKept(t, start, g);
    FirstScore(t, start, generations);
    NextBeatsMove(t, CurrentAfter(t, start, g), i);
    ScoresClimb(t, start, g + 1, generations);
  }

  /** When the last generation did not move, the search has found a local best: no move of one parameter from where it
      stands scores higher than the first candidate returned. */
  lemma StoppedAtLocalBest(t: Setting, start: Params, generations: nat, i: nat)
    requires generations > 0 && i < |start|
    requires CurrentAfter(t, start, generations) == CurrentAfter(t, start, generations - 1)
    ensures var p := CurrentAfter(t, start, generations);
      && |p| == |start| && Optimised(t, start, generations) != []
      && Optimised(t, start, generations)[0].score == Score(t, p)
      && Score(t, MovedUp(p, t.step, i)) <= Score(t, p) && Score(t, MovedDown(p, t.step, i)) <= Score(t, p)
  {
    FirstScore(t, start, generations);
    FirstBeatsMoves(t, start, generations, generations - 1, i);
  }

  lemma FirstBeatsBase(t: Setting, start: Params, generations: int)
    requires generations > 0
    ensures Optimised(t, start, generations) != []
    ensures forall i: nat :: i < |start| ==>
      && Score(t, MovedUp(start, t.step, i)) <= Optimised(t, start, generations)[0].score
      && Score(t, MovedDown(start, t.step, i)) <= Optimised(t, start, generations)[0].score
  {
    FirstScore(t, start, generations);
    forall i: nat | i < |start|
      ensures Score(t, MovedUp(start, t.step, i)) <= Optimised(t, start, generations)[0].score
      ensures Score(t, MovedDown(start, t.step, i)) <= Optimised(t, start, generations)[0].score
    {
      FirstBeatsMoves(t, start, generations, 0, i);
    }
  }

  lemma RememberedFirst(t: Setting, start: Params, n: nat)
    requires n > 0
    ensures Remembered(t, start, n) != []
    ensures var first := Sort(Descending, Remembered(t, start, n))[0];
      && first.score == Score(t, CurrentAfter(t, start, n))
      && forall c :: Evaluated(t, start, n, c) ==> c.score <= first.score
  {
    LastIsRemembered(t, start, n);
    RememberedWereTried(t, start, n);
    NextScore(t, CurrentAfter(t, start, n - 1));
    var best := Remembered(t, start, n);
    var last := Ranked(t, CurrentAfter(t, start, n - 1))[0];
    assert last.score == Score(t, CurrentAfter(t, start, n));
    forall c | Evaluated(t, start, n, c) ensures c.score <= last.score {
      BelowLast(t, start, n, c);
    }
    SortedFirst(best, last);
  }

  /** Sorting puts first an element that is as good as a best one. */
  lemma SortedFirst(s: seq<Candidate>, best: Candidate)
    requires best in s && forall c :: c in s ==> c.score <= best.score
    ensures Sort(Descending, s)[0].score == best.score
  {
    var sorted := Sort(Descending, s);
    SortMembers(Descending, s);
    SortSorted(Descending, s);
    assert sorted[0] in sorted;
    assert best in sorted;
    var i :| 0 <= i < |sorted| && sorted[i] == best;
    assert i > 0 ==> Descending(sorted[0]) <= Descending(sorted[i]);
  }

  lemma BelowLast(t: Setting, start: Params, n: nat, c: Candidate)
    requires n > 0 && Evaluated(t, start, n, c)
    ensures c.score <= Score(t, CurrentAfter(t, start, n))
  {
    var g :| 0 <= g < n && c in Tried(t, CurrentAfter(t, start, g));
    RankedFirst(t, CurrentAfter(t, start, g));
    NextScore(t, CurrentAfter(t, start, g));
    ScoresClimb(t, start, g + 1, n);
  }
}

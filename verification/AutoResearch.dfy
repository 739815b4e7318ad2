/** The promotion loop (agents/evolution/autoresearch.py): run the optimiser again and again from the same base
    parameters, and promote a result that beats the incumbent by at least a threshold. */
module AutoResearch {
  import opened Common
  import opened StableSort
  import Nightly = NightlyOptimizer

  type Candidate = Nightly.Candidate

  /** The policy; the runtime limit in the unit of the clock. */
  datatype Policy = Policy(maxRuntime: real, maxExperiments: int, generations: int, step: real,
    minImprovement: real, keepTopK: int)

  datatype Reason = NoCandidates | Promoted | BelowThreshold

  datatype Decision = Decision(id: nat, bestScore: real, before: real, improvement: real, kept: bool, reason: Reason,
    candidate: Option<Candidate>)

  datatype Report = Report(startedAt: real, finishedAt: real, experiments: nat, finalIncumbent: real,
    kept: seq<Decision>, discarded: seq<Decision>)

  datatype State = State(incumbent: real, kept: seq<Decision>, discarded: seq<Decision>)

  function ByBest(d: Decision): real {
    -d.bestScore
  }

  /** Python's s[:k]. */
  function Leading<T>(s: seq<T>, k: int): seq<T> {
    if k < 0 then s[..Max(0, |s| + k)] else s[..Min(|s|, k)]
  }

  /** With a nonnegative k at most k elements from the front; with a negative one all but the last -k. */
  lemma LeadingIsPrefix<T>(s: seq<T>, k: int)
    ensures Leading(s, k) <= s
    ensures k >= |s| ==> Leading(s, k) == s
    ensures 0 <= k <= |s| ==> |Leading(s, k)| == k
    ensures -|s| <= k < 0 ==> |s| - |Leading(s, k)| == -k
    ensures k < -|s| ==> Leading(s, k) == []
  {
  }

  // ---------------------------------------------------------------- what the loop computes

  function Decide(threshold: real, id: nat, incumbent: real, candidates: seq<Candidate>): Decision {
    if candidates == [] then Decision(id, incumbent, incumbent, 0.0, false, NoCandidates, None)
    else
      var top := Sort(Nightly.Descending, candidates)[0];
      var delta := top.score - incumbent;
      if delta >= threshold then Decision(id, top.score, incumbent, delta, true, Promoted, Some(top))
      else Decision(id, top.score, incumbent, delta, false, BelowThreshold, None)
  }

  function Record(s: State, d: Decision): State {
    if d.kept then State(d.bestScore, s.kept + [d], s.discarded) else s.(discarded := s.discarded + [d])
  }

  /** The loop over the results of the experiments, whatever they are. */
  function After(threshold: real, incumbent: real, runs: seq<seq<Candidate>>): State {
    if runs == [] then State(incumbent, [], [])
    else
      var s := After(threshold, incumbent, runs[..|runs| - 1]);
      Record(s, Decide(threshold, |runs|, s.incumbent, runs[|runs| - 1]))
  }

  /** How many experiments start, the first `done` having started. Reading i of the clock comes before experiment
      i; reading 0 sets the deadline. */
  function Started(policy: Policy, clock: nat -> real, done: nat): nat
    decreases policy.maxExperiments - done
  {
    if done >= policy.maxExperiments || clock(done + 1) >= clock(0) + policy.maxRuntime then done
    else Started(policy, clock, done + 1)
  }

  function Same(cs: seq<Candidate>, n: nat): (r: seq<seq<Candidate>>)
    ensures |r| == n
  {
    seq(n, i => cs)
  }

  /** What the run reports, in terms of the results of one experiment. */
  function Reported(policy: Policy, incumbent: real, clock: nat -> real, cs: seq<Candidate>): Report {
    var n := Started(policy, clock, 0);
    var s := After(policy.minImprovement, incumbent, Same(cs, n));
    var readings := if n < policy.maxExperiments then n + 2 else n + 1;
    Report(clock(0), clock(readings), n, s.incumbent, Leading(Sort(ByBest, s.kept), policy.keepTopK), s.discarded)
  }

  class AutoResearchRunner {
    const scoreFn: Nightly.Params -> real
    const baseParams: Nightly.Params
    const policy: Policy
    const slippage: real

    constructor (scoreFn: Nightly.Params -> real, baseParams: Nightly.Params, policy: Policy, slippage: real)
      ensures this.scoreFn == scoreFn && this.baseParams == baseParams && this.policy == policy
      ensures this.slippage == slippage
    {
      this.scoreFn, this.baseParams, this.policy, this.slippage := scoreFn, baseParams, policy, slippage;
    }

    function Candidates(): seq<Candidate> {
      Nightly.Optimised(Nightly.Setting(scoreFn, slippage, policy.step), baseParams, policy.generations)
    }

    method Run(incumbentScore: real, clock: nat -> real) returns (r: Report)
      ensures r == Reported(policy, incumbentScore, clock, Candidates())
      ensures r.startedAt == clock(0)
      ensures r.finishedAt == clock(r.experiments + if r.experiments < policy.maxExperiments then 2 else 1)
      ensures policy.keepTopK >= 0 ==> |r.kept| <= policy.keepTopK
      ensures policy.minImprovement > 0.0 ==>
        var t := Nightly.Setting(scoreFn, slippage, policy.step);
        r.finalIncumbent ==
          if r.experiments > 0 && policy.generations > 0
            && Reached(t, baseParams, policy.generations) - incumbentScore >= policy.minImprovement
          then Reached(t, baseParams, policy.generations) else incumbentScore
    {
      var startedAt := clock(0);
      var incumbent, kept, discarded, experiments, readings := Experiments(incumbentScore, clock);
      kept := Leading(Sort(ByBest, kept), policy.keepTopK);
      r := Report(startedAt, clock(readings), experiments, incumbent, kept, discarded);
      LeadingIsPrefix(Sort(ByBest, After(policy.minImprovement, incumbentScore, Same(Candidates(), experiments)).kept),
        policy.keepTopK);
      if policy.minImprovement > 0.0 {
        PromotesAtMostOne(policy, incumbentScore, clock, Nightly.Setting(scoreFn, slippage, policy.step), baseParams);
      }
    }

    /** The loop; `readings` counts the clock readings up to its end. */
    method Experiments(incumbentScore: real, clock: nat -> real)
      returns (incumbent: real, kept: seq<Decision>, discarded: seq<Decision>, experiments: nat, readings: nat)
      ensures experiments == Started(policy, clock, 0)
      ensures State(incumbent, kept, discarded)
        == After(policy.minImprovement, incumbentScore, Same(Candidates(), experiments))
      ensures readings == if experiments < policy.maxExperiments then experiments + 2 else experiments + 1
    {
      readings := 1;
      var deadline := clock(0) + policy.maxRuntime;
      kept, discarded, incumbent, experiments := [], [], incumbentScore, 0;
      while experiments < policy.maxExperiments
        invariant 0 <= experiments && readings == experiments + 1
        invariant Started(policy, clock, 0) == Started(policy, clock, experiments)
        invariant State(incumbent, kept, discarded)
          == After(policy.minImprovement, incumbentScore, Same(Candidates(), experiments))
        decreases policy.maxExperiments - experiments
      {
        var now := clock(readings);
        readings := readings + 1;
        if now >= deadline {
          break;
        }
        var optimizer := new Nightly.NightlyOptimizer(scoreFn, baseParams, slippage);
        var candidates := optimizer.Run(policy.generations, policy.step);
        OneMore(policy.minImprovement, incumbentScore, candidates, experiments);
        experiments := experiments + 1;
        var decision := Judge(experiments, incumbent, candidates);
        if decision.kept {
          kept := kept + [decision];
          incumbent := decision.bestScore;
        } else {
          discarded := discarded + [decision];
        }
      }
      assert experiments == Started(policy, clock, 0);
    }

    /** The body of the loop from the candidates to the decision. */
    method Judge(id: nat, incumbent: real, candidates: seq<Candidate>) returns (d: Decision)
      ensures d == Decide(policy.minImprovement, id, incumbent, candidates)
    {
      if candidates == [] {
        return Decision(id, incumbent, incumbent, 0.0, false, NoCandidates, None);
      }
      var top := Sort(Nightly.Descending, candidates)[0];
      var delta := top.score - incumbent;
      var keep := delta >= policy.minImprovement;
      d := Decision(id, top.score, incumbent, delta, keep, if keep then Promoted else BelowThreshold,
        if keep then Some(top) else None);
    }
  }

  lemma OneMore(threshold: real, incumbent: real, cs: seq<Candidate>, n: nat)
    ensures var s := After(threshold, incumbent, Same(cs, n));
      After(threshold, incumbent, Same(cs, n + 1)) == Record(s, Decide(threshold, n + 1, s.incumbent, cs))
  {
    assert Same(cs, n + 1)[..n] == Same(cs, n);
  }

  // ---------------------------------------------------------------- properties of every run

  /** Experiments start until the first whose clock reading has reached the deadline, or all have. */
  lemma {:induction false} StartedExactly(policy: Policy, clock: nat -> real, done: nat)
    ensures var n := Started(policy, clock, done);
      && done <= n <= Max(done, policy.maxExperiments)
      && (forall i :: done < i <= n ==> clock(i) < clock(0) + policy.maxRuntime)
      && (n < policy.maxExperiments ==> clock(n + 1) >= clock(0) + policy.maxRuntime)
    decreases policy.maxExperiments - done
  {
    if done < policy.maxExperiments && clock(done + 1) < clock(0) + policy.maxRuntime {
      StartedExactly(policy, clock, done + 1);
    }
  }

  /** The promotions, in order, lead from one incumbent to the next in steps of at least the threshold. */
  ghost predicate Ladder(threshold: real, first: real, kept: seq<Decision>, last: real) {
    && (kept == [] ==> first == last)
    && (kept != [] ==> kept[0].before == first && kept[|kept| - 1].bestScore == last)
    && (forall i :: 0 <= i < |kept| ==> kept[i].bestScore - kept[i].before == kept[i].improvement >= threshold)
    && (forall i :: 0 < i < |kept| ==> kept[i].before == kept[i - 1].bestScore)
  }

  lemma {:induction false} PromotionsAreLadder(threshold: real, incumbent: real, runs: seq<seq<Candidate>>)
    ensures var s := After(threshold, incumbent, runs);
      Ladder(threshold, incumbent, s.kept, s.incumbent) && |s.kept| + |s.discarded| == |runs|
  {
    if runs != [] {
      PromotionsAreLadder(threshold, incumbent, runs[..|runs| - 1]);
    }
  }

  function Steps(n: nat, threshold: real): real {
    if n == 0 then 0.0 else Steps(n - 1, threshold) + threshold
  }

  lemma {:induction false} LadderRises(threshold: real, first: real, kept: seq<Decision>, last: real)
    requires Ladder(threshold, first, kept, last)
    ensures last >= first + Steps(|kept|, threshold)
    decreases |kept|
  {
    if kept != [] {
      var m := |kept| - 1;
      LadderRises(threshold, first, kept[..m], kept[m].before);
    }
  }

  /** Each promotion adds at least the threshold to the incumbent, whatever the experiments return. */
  lemma {:induction false} IncumbentRises(threshold: real, incumbent: real, runs: seq<seq<Candidate>>)
    ensures var s := After(threshold, incumbent, runs);
      s.incumbent >= incumbent + Steps(|s.kept|, threshold)
  {
    PromotionsAreLadder(threshold, incumbent, runs);
    var s := After(threshold, incumbent, runs);
    LadderRises(threshold, incumbent, s.kept, s.incumbent);
  }

  ghost predicate HasId(s: seq<Decision>, id: nat) {
    exists i :: 0 <= i < |s| && s[i].id == id
  }

  /** Every experiment is decided exactly once: kept or discarded, not both. */
  lemma {:induction false} EachDecidedOnce(threshold: real, incumbent: real, runs: seq<seq<Candidate>>, id: nat)
    ensures var s := After(threshold, incumbent, runs);
      && (HasId(s.kept, id) || HasId(s.discarded, id) <==> 1 <= id <= |runs|)
      && !(HasId(s.kept, id) && HasId(s.discarded, id))
  {
    if runs != [] {
      var s := After(threshold, incumbent, runs[..|runs| - 1]);
      EachDecidedOnce(threshold, incumbent, runs[..|runs| - 1], id);
      var d := Decide(threshold, |runs|, s.incumbent, runs[|runs| - 1]);
      HasIdSnoc(s.kept, d, id);
      HasIdSnoc(s.discarded, d, id);
    }
  }

  lemma HasIdSnoc(s: seq<Decision>, d: Decision, id: nat)
    ensures HasId(s + [d], id) <==> HasId(s, id) || d.id == id
  {
    if HasId(s, id) {
      var i :| 0 <= i < |s| && s[i].id == id;
      assert (s + [d])[i].id == id;
    }
    assert (s + [d])[|s|] == d;
  }

  /** What one decision records: the incumbent it met and the best score of its experiment, kept with that candidate
      exactly if the difference reaches the threshold; an experiment without candidates changes and keeps nothing. */
  ghost predicate Records(d: Decision, threshold: real, incumbent: real, candidates: seq<Candidate>) {
    && d.before == incumbent && d.improvement == d.bestScore - incumbent
    && (candidates == [] ==> d.bestScore == incumbent && !d.kept && d.reason == NoCandidates && d.candidate == None)
    && (candidates != [] ==>
          && (exists c :: c in candidates && d.bestScore == c.score)
          && (forall c :: c in candidates ==> c.score <= d.bestScore)
          && (d.kept <==> d.bestScore - incumbent >= threshold)
          && d.reason == (if d.kept then Promoted else BelowThreshold)
          && (d.kept ==> d.candidate.Some? && d.candidate.value in candidates && d.candidate.value.score == d.bestScore)
          && (!d.kept ==> d.candidate == None))
  }

  lemma DecideRecords(threshold: real, id: nat, incumbent: real, candidates: seq<Candidate>)
    ensures Decide(threshold, id, incumbent, candidates).id == id
    ensures Records(Decide(threshold, id, incumbent, candidates), threshold, incumbent, candidates)
  {
    if candidates != [] {
      var sorted := Sort(Nightly.Descending, candidates);
      SortMembers(Nightly.Descending, candidates);
      SortSorted(Nightly.Descending, candidates);
      assert sorted[0] in candidates;
      forall c | c in candidates ensures c.score <= sorted[0].score {
        var i :| 0 <= i < |sorted| && sorted[i] == c;
        assert i > 0 ==> Nightly.Descending(sorted[0]) <= Nightly.Descending(sorted[i]);
      }
    }
  }

  /** Every decision of the loop, kept or discarded, records its experiment, against the incumbent that the ones before
      it left; the kept ones are in one list and the others in the other. */
  lemma {:induction false} EveryDecisionRecords(threshold: real, incumbent: real, runs: seq<seq<Candidate>>, d: Decision)
    requires var s := After(threshold, incumbent, runs); d in s.kept || d in s.discarded
    ensures 1 <= d.id <= |runs|
    ensures Records(d, threshold, After(threshold, incumbent, runs[..d.id - 1]).incumbent, runs[d.id - 1])
    ensures d.kept <==> d in After(threshold, incumbent, runs).kept
    decreases |runs|
  {
    var n := |runs| - 1;
    var s := After(threshold, incumbent, runs[..n]);
    var last := Decide(threshold, n + 1, s.incumbent, runs[n]);
    DecideRecords(threshold, n + 1, s.incumbent, runs[n]);
    KeptAreKept(threshold, incumbent, runs);
    if d in s.kept || d in s.discarded {
      EveryDecisionRecords(threshold, incumbent, runs[..n], d);
      assert runs[..n][..d.id - 1] == runs[..d.id - 1] && runs[..n][d.id - 1] == runs[d.id - 1];
    } else {
      assert d == last;
    }
  }

  lemma {:induction false} KeptAreKept(threshold: real, incumbent: real, runs: seq<seq<Candidate>>)
    ensures forall d :: d in After(threshold, incumbent, runs).kept ==> d.kept
    ensures forall d :: d in After(threshold, incumbent, runs).discarded ==> !d.kept
  {
    if runs != [] {
      KeptAreKept(threshold, incumbent, runs[..|runs| - 1]);
    }
  }

  // ---------------------------------------------------------------- the deterministic run, in closed form

  /** Every experiment gives the same candidates, so the first decides: below the threshold nothing is ever
      promoted; otherwise the first is, and the others only where the threshold is not positive. */
  lemma {:induction false} SameResults(threshold: real, incumbent: real, cs: seq<Candidate>, n: nat)
    requires cs != []
    ensures var s := After(threshold, incumbent, Same(cs, n));
      var top := Sort(Nightly.Descending, cs)[0];
      && (top.score - incumbent < threshold ==> |s.kept| == 0 && s.incumbent == incumbent)
      && (top.score - incumbent >= threshold > 0.0 ==> |s.kept| == Min(n, 1))
      && (top.score - incumbent >= threshold && threshold <= 0.0 ==> |s.kept| == n)
      && (top.score - incumbent >= threshold ==> s.incumbent == if n == 0 then incumbent else top.score)
      && (forall i :: 0 <= i < |s.kept| ==>
            (s.kept[i].id == i + 1 && s.kept[i].bestScore == top.score && s.kept[i].candidate == Some(top)))
  {
    if n > 0 {
      SameResults(threshold, incumbent, cs, n - 1);
      OneMore(threshold, incumbent, cs, n - 1);
    }
  }

  lemma {:induction false} NoResults(threshold: real, incumbent: real, n: nat)
    ensures After(threshold, incumbent, Same([], n)).kept == []
    ensures After(threshold, incumbent, Same([], n)).incumbent == incumbent
  {
    if n > 0 {
      NoResults(threshold, incumbent, n - 1);
      OneMore(threshold, incumbent, [], n - 1);
    }
  }

  /** The top score of every experiment: what the last generation of a search from the base parameters reaches. */
  function Reached(t: Nightly.Setting, base: Nightly.Params, generations: nat): real {
    Nightly.Score(t, Nightly.CurrentAfter(t, base, generations))
  }

  lemma TopIsReached(t: Nightly.Setting, base: Nightly.Params, generations: nat)
    requires generations > 0
    ensures var cs := Nightly.Optimised(t, base, generations);
      cs != [] && Sort(Nightly.Descending, cs)[0] == cs[0] && cs[0].score == Reached(t, base, generations)
  {
    Nightly.FirstIsBestEver(t, base, generations);
    Nightly.ResultShape(t, base, generations);
    SortedIsFixed(Nightly.Descending, Nightly.Optimised(t, base, generations));
  }

  /** A run with a positive threshold promotes at most one experiment; it promotes the first exactly when some
      experiment starts, there are generations, and the search beats the incumbent by the threshold. The final
      incumbent is then the best score the search ever evaluates, and otherwise the one the run began with. */
  lemma PromotesAtMostOne(policy: Policy, incumbent: real, clock: nat -> real, t: Nightly.Setting, base: Nightly.Params)
    requires policy.minImprovement > 0.0
    ensures var n := Started(policy, clock, 0);
      var cs := Nightly.Optimised(t, base, policy.generations);
      var s := After(policy.minImprovement, incumbent, Same(cs, n));
      var promotes := n > 0 && policy.generations > 0
        && Reached(t, base, policy.generations) - incumbent >= policy.minImprovement;
      && |s.kept| == (if promotes then 1 else 0)
      && (promotes ==> cs != [] && s.kept[0].id == 1 && s.kept[0].candidate == Some(cs[0]))
      && s.incumbent == (if promotes then Reached(t, base, policy.generations) else incumbent)
      && |s.discarded| == n - |s.kept|
  {
    var n := Started(policy, clock, 0);
    var cs := Nightly.Optimised(t, base, policy.generations);
    PromotionsAreLadder(policy.minImprovement, incumbent, Same(cs, n));
    Nightly.FirstIsBestEver(t, base, policy.generations);
    if policy.generations > 0 {
      TopIsReached(t, base, policy.generations);
      SameResults(policy.minImprovement, incumbent, cs, n);
    } else {
      NoResults(policy.minImprovement, incumbent, n);
    }
  }

  /** The final sort puts the best promotion first, and promotions of equal score keep their order. */
  lemma BestPromotionFirst(kept: seq<Decision>)
    ensures forall i, j :: 0 <= i < j < |kept| ==>
      Sort(ByBest, kept)[i].bestScore >= Sort(ByBest, kept)[j].bestScore
    ensures forall x: real :: ClassOf(ByBest, x, Sort(ByBest, kept)) == ClassOf(ByBest, x, kept)
  {
    var sorted := Sort(ByBest, kept);
    SortSorted(ByBest, kept);
    assert forall i, j :: 0 <= i < j < |sorted| ==> ByBest(sorted[i]) <= ByBest(sorted[j]);
    forall x: real ensures ClassOf(ByBest, x, sorted) == ClassOf(ByBest, x, kept) {
      SortStable(ByBest, kept, x);
    }
  }

  /** All promotions of a run have the same score, so the report keeps the earliest of them. */
  lemma ReportKeepsEarliest(policy: Policy, incumbent: real, clock: nat -> real, cs: seq<Candidate>)
    ensures Reported(policy, incumbent, clock, cs).kept
      == Leading(After(policy.minImprovement, incumbent, Same(cs, Started(policy, clock, 0))).kept, policy.keepTopK)
  {
    var n := Started(policy, clock, 0);
    var kept := After(policy.minImprovement, incumbent, Same(cs, n)).kept;
    if cs == [] {
      NoResults(policy.minImprovement, incumbent, n);
    } else {
      SameResults(policy.minImprovement, incumbent, cs, n);
    }
    SortedIsFixed(ByBest, kept);
  }
}

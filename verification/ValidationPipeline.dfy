/** Sequential and parallel validation gates (agents/backtest/validation_pipeline.py). */
module ValidationPipeline {
  import opened Common
  import SE = SubagentExecutor

  datatype GateStatus = PASS | FAIL | ERROR

  datatype GateResult = GateResult(number: int, name: string, status: GateStatus)

  datatype Gate = Gives(result: GateResult) | Raises(error: string)

  /** What the gates answer for one candidate: the two prerequisites, the five independent gates in order, and the
      optional gates, each None where nothing is configured for it. */
  datatype Candidate = Candidate(
    syntax: Gate, quality: Gate, five: seq<Gate>,
    swarm: Option<Gate>, recipe: Option<Gate>, consensus: Option<Gate>, funding: Option<Gate>, strategyType: string)

  datatype Summary = Summary(results: seq<GateResult>) | Failed(error: string)

  const ROLES := ["sensitivity", "vectorbt", "walk_forward", "regime", "correlation"]

  predicate WellFormed(c: Candidate) {
    |c.five| == 5
  }

  predicate Passed(results: seq<GateResult>) {
    results != [] && forall r :: r in results ==> r.status == PASS
  }

  function Chain(done: seq<GateResult>, gates: seq<Gate>): Summary
    decreases |gates|
  {
    if gates == [] then Summary(done)
    else if gates[0].Raises? then Failed(gates[0].error)
    else Chain(done + [gates[0].result], gates[1..])
  }

  function IfConfigured(g: Option<Gate>): seq<Gate> {
    if g.Some? then [g.value] else []
  }

  /** The optional gates that run: the funding gate only for funding arbitrage. */
  function Optional(c: Candidate): seq<Gate> {
    IfConfigured(c.swarm) + IfConfigured(c.recipe) + IfConfigured(c.consensus)
    + if c.strategyType == "funding_arbitrage" then IfConfigured(c.funding) else []
  }

  function Sequential(c: Candidate): Summary {
    if c.syntax.Raises? then Failed(c.syntax.error)
    else if c.syntax.result.status != PASS then Summary([c.syntax.result])
    else if c.quality.Raises? then Failed(c.quality.error)
    else if c.quality.result.status != PASS then Summary([c.syntax.result, c.quality.result])
    else Chain([c.syntax.result, c.quality.result], c.five + Optional(c))
  }

  /** How the executor sees the gate task: an exception of the gate, a timeout, or a result. */
  function TaskOutcome(g: Gate, expired: bool): SE.Outcome<GateResult> {
    if expired then SE.Expired else if g.Gives? then SE.Returned(g.result) else SE.Raised(g.error)
  }

  function Outcomes(c: Candidate, expired: set<nat>): seq<SE.Outcome<GateResult>> {
    seq(|c.five|, i requires 0 <= i < |c.five| => TaskOutcome(c.five[i], i in expired))
  }

  function Tasks(): seq<SE.Task> {
    seq(|ROLES|, i requires 0 <= i < |ROLES| => SE.Task("run-" + ROLES[i], ROLES[i]))
  }

  /** `result_map.get(role)`: the output of the last ok result with that role. */
  function Lookup(results: seq<SE.TaskResult<GateResult>>, role: string): Option<GateResult> {
    if results == [] then None
    else
      var last := results[|results| - 1];
      if last.role == role && last.status == SE.Ok then last.output
      else Lookup(results[..|results| - 1], role)
  }

  /** The loop that collects the results in gate order. */
  function Collect(done: seq<GateResult>, results: seq<SE.TaskResult<GateResult>>, roles: seq<string>): seq<GateResult>
    decreases |roles|
  {
    if roles == [] then done
    else
      var r := Lookup(results, roles[0]);
      Collect(if r.Some? then done + [r.value] else done, results, roles[1..])
  }

  /** The parallel path, given the report of the executor. */
  function Parallel(c: Candidate, results: seq<SE.TaskResult<GateResult>>): Summary {
    if c.syntax.Raises? then Failed(c.syntax.error)
    else if c.syntax.result.status != PASS then Summary([c.syntax.result])
    else if c.quality.Raises? then Failed(c.quality.error)
    else if c.quality.result.status != PASS then Summary([c.syntax.result, c.quality.result])
    else Summary(Collect([c.syntax.result, c.quality.result], results, ROLES))
  }

  /** The results that survive, in gate order. */
  function Surviving(gates: seq<Gate>, expired: set<nat>, from: nat): seq<GateResult> {
    if gates == [] then []
    else (if gates[0].Gives? && from !in expired then [gates[0].result] else []) + Surviving(gates[1..], expired, from + 1)
  }

  /** A complete interleaving of the five gate tasks, in which the tasks of `expired` time out. */
  ghost predicate CompleteRun(
      c: Candidate, expired: set<nat>, events: seq<SE.Event<GateResult>>, states: seq<SE.State<GateResult>>)
    requires WellFormed(c)
  {
    && SE.RunFrom(5, 5, events, states) && |events| == 10
    && (forall e :: e in events && e.Finish? && e.i < 5 ==> e.outcome == TaskOutcome(c.five[e.i], e.i in expired))
  }

  /** The report of some complete interleaving. */
  ghost predicate Report(c: Candidate, expired: set<nat>, results: seq<SE.TaskResult<GateResult>>)
    requires WellFormed(c)
  {
    exists events: seq<SE.Event<GateResult>>, states: seq<SE.State<GateResult>> ::
      && CompleteRun(c, expired, events, states)
      && states[10].phases == seq(5, i requires 0 <= i < 5 => SE.Done(TaskOutcome(c.five[i], i in expired)))
      && results == SE.Gather(Tasks(), states[10].phases)
  }

  /** The second conjunct of `Report` asks for nothing: every complete interleaving ends so. */
  lemma EveryRunReports(
      c: Candidate, expired: set<nat>, events: seq<SE.Event<GateResult>>, states: seq<SE.State<GateResult>>)
    requires WellFormed(c) && CompleteRun(c, expired, events, states)
    ensures states[10].phases == seq(5, i requires 0 <= i < 5 => SE.Done(TaskOutcome(c.five[i], i in expired)))
    ensures Report(c, expired, SE.Gather(Tasks(), states[10].phases))
  {
    SE.OrderIndependent(5, Outcomes(c, expired), events, states);
  }

  // ---------------------------------------------------------------- agreement

  /** The one report that all interleavings give. */
  function FixedReport(c: Candidate, expired: set<nat>): seq<SE.TaskResult<GateResult>>
    requires WellFormed(c)
  {
    seq(5, i requires 0 <= i < 5 => SE.ResultOf(Tasks()[i], TaskOutcome(c.five[i], i in expired)))
  }

  lemma ReportIsFixed(c: Candidate, expired: set<nat>, results: seq<SE.TaskResult<GateResult>>)
    requires WellFormed(c) && Report(c, expired, results)
    ensures results == FixedReport(c, expired)
  {
  }

  lemma {:induction false} LookupFinds(results: seq<SE.TaskResult<GateResult>>, k: nat)
    requires k < |results| && forall i, j :: 0 <= i < j < |results| ==> results[i].role != results[j].role
    ensures Lookup(results, results[k].role) == if results[k].status == SE.Ok then results[k].output else None
  {
    var n := |results| - 1;
    if k < n {
      LookupFinds(results[..n], k);
    } else {
      LookupMisses(results[..n], results[k].role);
    }
  }

  lemma {:induction false} LookupMisses(results: seq<SE.TaskResult<GateResult>>, role: string)
    requires forall i :: 0 <= i < |results| ==> results[i].role != role
    ensures Lookup(results, role) == None
  {
    if results != [] {
      LookupMisses(results[..|results| - 1], role);
    }
  }

  lemma RolesDistinct()
    ensures forall i, j :: 0 <= i < j < |ROLES| ==> ROLES[i] != ROLES[j]
  {
    assert ROLES[0][0] == 's' && ROLES[1][0] == 'v' && ROLES[2][0] == 'w' && ROLES[3][0] == 'r' && ROLES[4][0] == 'c';
  }

  lemma {:induction false} CollectSurviving(c: Candidate, expired: set<nat>, done: seq<GateResult>, k: nat)
    requires WellFormed(c) && k <= 5
    ensures Collect(done, FixedReport(c, expired), ROLES[k..]) == done + Surviving(c.five[k..], expired, k)
    decreases 5 - k
  {
    if k < 5 {
      var report := FixedReport(c, expired);
      RolesDistinct();
      LookupFinds(report, k);
      assert ROLES[k..][0] == report[k].role && ROLES[k..][1..] == ROLES[k + 1..];
      assert c.five[k..][0] == c.five[k] && c.five[k..][1..] == c.five[k + 1..];
      var r := Lookup(report, report[k].role);
      CollectSurviving(c, expired, if r.Some? then done + [r.value] else done, k + 1);
      var rest := Surviving(c.five[k + 1..], expired, k + 1);
      if r.Some? {
        Regroup(done, [r.value], rest);
      } else {
        assert [] + rest == rest;
      }
    } else {
      assert done + [] == done;
    }
  }

  predicate Prerequisites(c: Candidate) {
    c.syntax.Gives? && c.syntax.result.status == PASS && c.quality.Gives? && c.quality.result.status == PASS
  }

  /** Every gate returns in time; `from` numbers the first. */
  predicate AllOk(gates: seq<Gate>, expired: set<nat>, from: nat) {
    gates == [] || (gates[0].Gives? && from !in expired && AllOk(gates[1..], expired, from + 1))
  }

  lemma {:induction false} AllOkMeans(c: Candidate, expired: set<nat>, k: nat)
    requires k <= |c.five|
    ensures AllOk(c.five[k..], expired, k) <==> forall i :: k <= i < |c.five| ==> c.five[i].Gives? && i !in expired
    decreases |c.five| - k
  {
    if k < |c.five| {
      assert c.five[k..][1..] == c.five[k + 1..];
      AllOkMeans(c, expired, k + 1);
    }
  }

  lemma {:induction false} SurvivingCount(gates: seq<Gate>, expired: set<nat>, from: nat)
    ensures |Surviving(gates, expired, from)| <= |gates|
    ensures |Surviving(gates, expired, from)| == |gates| <==> AllOk(gates, expired, from)
  {
    if gates != [] {
      SurvivingCount(gates[1..], expired, from + 1);
    }
  }

  lemma {:induction false} ChainSurvives(done: seq<GateResult>, gates: seq<Gate>, expired: set<nat>, from: nat)
    ensures Chain(done, gates).Summary? ==> |Chain(done, gates).results| == |done| + |gates|
    ensures AllOk(gates, expired, from) ==> Chain(done, gates) == Summary(done + Surviving(gates, expired, from))
    decreases |gates|
  {
    if gates == [] {
      assert done + [] == done;
    } else if gates[0].Gives? {
      ChainSurvives(done + [gates[0].result], gates[1..], expired, from + 1);
      var rest := Surviving(gates[1..], expired, from + 1);
      assert (done + [gates[0].result]) + rest == done + ([gates[0].result] + rest);
    }
  }

  lemma OptionalInOrder(c: Candidate)
    ensures c.five + Optional(c)
      == c.five + (if c.swarm.Some? then [c.swarm.value] else [])
         + (if c.recipe.Some? then [c.recipe.value] else [])
         + (if c.consensus.Some? then [c.consensus.value] else [])
         + (if c.funding.Some? && c.strategyType == "funding_arbitrage" then [c.funding.value] else [])
  {
  }

  lemma NoneOptional(c: Candidate)
    ensures Optional(c) == [] <==>
      && c.swarm.None? && c.recipe.None? && c.consensus.None?
      && (c.funding.None? || c.strategyType != "funding_arbitrage")
  {
    assert |Optional(c)| == |IfConfigured(c.swarm)| + |IfConfigured(c.recipe)| + |IfConfigured(c.consensus)|
      + if c.strategyType == "funding_arbitrage" then |IfConfigured(c.funding)| else 0;
  }

  /** Past the prerequisites the two paths give the same list exactly when all five gate tasks end ok and no
      optional gate is configured, whatever the interleaving. */
  lemma AgreesExactlyWhen(c: Candidate, expired: set<nat>, results: seq<SE.TaskResult<GateResult>>)
    requires WellFormed(c) && Prerequisites(c) && Report(c, expired, results)
    ensures Parallel(c, results) == Sequential(c)
      <==> (&& (forall i :: 0 <= i < 5 ==> c.five[i].Gives? && i !in expired)
            && c.swarm.None? && c.recipe.None? && c.consensus.None?
            && (c.funding.None? || c.strategyType != "funding_arbitrage"))
  {
    var done := [c.syntax.result, c.quality.result];
    ReportIsFixed(c, expired, results);
    CollectSurviving(c, expired, done, 0);
    assert ROLES[0..] == ROLES && c.five[0..] == c.five;
    AllOkMeans(c, expired, 0);
    SurvivingCount(c.five, expired, 0);
    NoneOptional(c);
    ChainSurvives(done, c.five + Optional(c), expired, 0);
    if Optional(c) == [] {
      assert c.five + Optional(c) == c.five;
      ChainSurvives(done, c.five, expired, 0);
    }
  }

  /** When a prerequisite fails or raises, the two paths always agree. */
  lemma PrerequisitesAgree(c: Candidate, results: seq<SE.TaskResult<GateResult>>)
    requires !Prerequisites(c)
    ensures Parallel(c, results) == Sequential(c)
  {
  }

  lemma {:induction false} SurvivingMembers(c: Candidate, expired: set<nat>, k: nat)
    requires k <= |c.five|
    ensures forall r ::
      r in Surviving(c.five[k..], expired, k) <==> exists i :: k <= i < |c.five| && c.five[i] == Gives(r) && i !in expired
    decreases |c.five| - k
  {
    if k < |c.five| {
      assert c.five[k..][1..] == c.five[k + 1..];
      SurvivingMembers(c, expired, k + 1);
      var rest := Surviving(c.five[k + 1..], expired, k + 1);
      var head := if c.five[k].Gives? && k !in expired then [c.five[k].result] else [];
      assert forall r :: r in head + rest <==> r in head || r in rest;
    }
  }

  /** js numbers, in increasing order from k on, exactly the gates that gave their result in time. */
  ghost predicate InTime(c: Candidate, expired: set<nat>, k: nat, js: seq<nat>) {
    && (forall i :: 0 <= i < |js| ==> k <= js[i] < |c.five|)
    && (forall i, j :: 0 <= i < j < |js| ==> js[i] < js[j])
    && (forall i: nat :: k <= i < |c.five| ==> (i in js <==> c.five[i].Gives? && i !in expired))
  }

  lemma {:induction false} SurvivingAre(c: Candidate, expired: set<nat>, k: nat) returns (js: seq<nat>)
    requires k <= |c.five|
    ensures InTime(c, expired, k, js) && |js| == |Surviving(c.five[k..], expired, k)|
    ensures forall i :: 0 <= i < |js| ==>
      c.five[js[i]].Gives? && Surviving(c.five[k..], expired, k)[i] == c.five[js[i]].result
    decreases |c.five| - k
  {
    js := [];
    if k < |c.five| {
      assert c.five[k..][1..] == c.five[k + 1..];
      js := SurvivingAre(c, expired, k + 1);
      if c.five[k].Gives? && k !in expired {
        ghost var rest := js;
        js := [k] + rest;
        assert forall i :: i in js <==> i == k || i in rest;
      }
    }
  }

  /** What the parallel path returns past the prerequisites: these two and, in gate order, the gates that gave their
      result in time. */
  lemma ParallelResults(c: Candidate, expired: set<nat>, results: seq<SE.TaskResult<GateResult>>) returns (js: seq<nat>)
    requires WellFormed(c) && Prerequisites(c) && Report(c, expired, results)
    ensures InTime(c, expired, 0, js)
    ensures var r := Parallel(c, results);
      && r.Summary? && |r.results| == 2 + |js|
      && r.results[0] == c.syntax.result && r.results[1] == c.quality.result
      && forall i :: 0 <= i < |js| ==> c.five[js[i]].Gives? && r.results[2 + i] == c.five[js[i]].result
  {
    var done := [c.syntax.result, c.quality.result];
    ReportIsFixed(c, expired, results);
    CollectSurviving(c, expired, done, 0);
    assert ROLES[0..] == ROLES && c.five[0..] == c.five;
    js := SurvivingAre(c, expired, 0);
    assert Parallel(c, results) == Summary(done + Surviving(c.five, expired, 0));
  }

  /** The parallel verdict ignores gates that raise or time out: it is positive exactly when both prerequisites
      and every gate that did return passed -- even if none of the five returned. */
  lemma ParallelVerdict(c: Candidate, expired: set<nat>, results: seq<SE.TaskResult<GateResult>>)
    requires WellFormed(c) && Prerequisites(c) && Report(c, expired, results)
    ensures Passed(Parallel(c, results).results)
      <==> forall i :: 0 <= i < 5 && c.five[i].Gives? && i !in expired ==> c.five[i].result.status == PASS
  {
    var done := [c.syntax.result, c.quality.result];
    ReportIsFixed(c, expired, results);
    CollectSurviving(c, expired, done, 0);
    assert ROLES[0..] == ROLES && c.five[0..] == c.five;
    SurvivingMembers(c, expired, 0);
    var rest := Surviving(c.five, expired, 0);
    assert Parallel(c, results) == Summary(done + rest);
    PassedAfter(done, rest);
    SurvivorsPass(c, expired, rest);
  }

  lemma PassedAfter(done: seq<GateResult>, rest: seq<GateResult>)
    requires done != [] && forall r :: r in done ==> r.status == PASS
    ensures Passed(done + rest) <==> forall r :: r in rest ==> r.status == PASS
  {
    assert forall r :: r in done + rest <==> r in done || r in rest;
  }

  lemma SurvivorsPass(c: Candidate, expired: set<nat>, rest: seq<GateResult>)
    requires WellFormed(c)
    requires forall r :: r in rest <==> exists i :: 0 <= i < |c.five| && c.five[i] == Gives(r) && i !in expired
    ensures (forall r :: r in rest ==> r.status == PASS)
      <==> forall i :: 0 <= i < 5 && c.five[i].Gives? && i !in expired ==> c.five[i].result.status == PASS
  {
    forall i | 0 <= i < 5 && c.five[i].Gives? && i !in expired ensures c.five[i].result in rest {
      assert c.five[i] == Gives(c.five[i].result);
    }
  }

  // ---------------------------------------------------------------- the sequential run, gate by gate

  /** Every gate of the list has given its result, in order after those of done; or the first that raises ends it. */
  ghost predicate RanThrough(done: seq<GateResult>, gates: seq<Gate>, r: Summary) {
    && (r.Summary? <==> forall i :: 0 <= i < |gates| ==> gates[i].Gives?)
    && (r.Summary? ==>
          && |r.results| == |done| + |gates| && done <= r.results
          && forall i :: 0 <= i < |gates| ==> r.results[|done| + i] == gates[i].result)
    && (r.Failed? ==> exists k :: 0 <= k < |gates| && gates[k] == Raises(r.error) && forall i :: 0 <= i < k ==> gates[i].Gives?)
  }

  lemma {:induction false} ChainRunsThrough(done: seq<GateResult>, gates: seq<Gate>)
    ensures RanThrough(done, gates, Chain(done, gates))
    decreases |gates|
  {
    if gates != [] {
      var r := Chain(done, gates);
      if gates[0].Raises? {
        assert gates[0] == Raises(r.error);
      } else {
        ChainRunsThrough(done + [gates[0].result], gates[1..]);
        RunsOneMore(done, gates, r);
      }
    }
  }

  lemma RunsOneMore(done: seq<GateResult>, gates: seq<Gate>, r: Summary)
    requires gates != [] && gates[0].Gives? && RanThrough(done + [gates[0].result], gates[1..], r)
    ensures RanThrough(done, gates, r)
  {
    assert forall i :: 1 <= i < |gates| ==> gates[i] == gates[1..][i - 1];
    if r.Summary? {
      assert (done + [gates[0].result]) <= r.results;
      assert r.results[|done|] == (done + [gates[0].result])[|done|];
      forall i | 0 <= i < |gates| ensures gates[i].Gives? && r.results[|done| + i] == gates[i].result {
        assert i > 0 ==> gates[1..][i - 1].Gives?;
        assert i > 0 ==> r.results[|done| + 1 + (i - 1)] == gates[1..][i - 1].result;
      }
    } else {
      var k :| 0 <= k < |gates| - 1 && gates[1..][k] == Raises(r.error) && forall i :: 0 <= i < k ==> gates[1..][i].Gives?;
      assert gates[k + 1] == Raises(r.error);
      forall i | 0 <= i < k + 1 ensures gates[i].Gives? {
        assert i > 0 ==> gates[1..][i - 1].Gives?;
      }
    }
  }

  // ---------------------------------------------------------------- the class

  /** The sequential pipeline; `persisted` are the rows written to the validations table. */
  class ValidationPipelineRun {
    var persisted: seq<GateResult>

    constructor ()
      ensures persisted == []
    {
      persisted := [];
    }

    method Append(g: Gate, done: seq<GateResult>) returns (r: Summary)
      modifies this
      ensures r == Chain(done, [g])
      ensures r == if g.Gives? then Summary(done + [g.result]) else Failed(g.error)
      ensures persisted == old(persisted) + if g.Gives? then [g.result] else []
    {
      assert [g][0] == g && [g][1..] == [];
      if g.Raises? {
        return Failed(g.error);
      }
      persisted := persisted + [g.result];
      r := Summary(done + [g.result]);
      assert Chain(done, [g]) == Chain(done + [g.result], [g][1..]);
    }

    /** A prerequisite that raises or does not pass ends the run after it; past them every one of the five gates and of
        the configured optional ones runs, whatever the others gave. The rows written are exactly the gates returned. */
    method Run(c: Candidate) returns (r: Summary)
      requires WellFormed(c)
      modifies this
      ensures r == Sequential(c)
      ensures c.syntax.Raises? ==> r == Failed(c.syntax.error)
      ensures c.syntax.Gives? && c.syntax.result.status != PASS ==> r == Summary([c.syntax.result])
      ensures c.syntax.Gives? && c.syntax.result.status == PASS ==>
        && (c.quality.Raises? ==> r == Failed(c.quality.error))
        && (c.quality.Gives? && c.quality.result.status != PASS ==> r == Summary([c.syntax.result, c.quality.result]))
        && (c.quality.Gives? && c.quality.result.status == PASS ==>
              RanThrough([c.syntax.result, c.quality.result],
                c.five + (if c.swarm.Some? then [c.swarm.value] else [])
                + (if c.recipe.Some? then [c.recipe.value] else [])
                + (if c.consensus.Some? then [c.consensus.value] else [])
                + (if c.funding.Some? && c.strategyType == "funding_arbitrage" then [c.funding.value] else []), r))
      ensures r.Summary? ==> persisted == old(persisted) + r.results
    {
      r := Append(c.syntax, []);
      if r.Failed? || c.syntax.result.status != PASS {
        return;
      }
      r := Append(c.quality, r.results);
      if r.Failed? || c.quality.result.status != PASS {
        return;
      }
      var gates := c.five + Optional(c);
      ChainRunsThrough(r.results, gates);
      OptionalInOrder(c);
      assert r.results == [c.syntax.result, c.quality.result] && gates[0..] == gates;
      for i := 0 to |gates|
        invariant r.Summary? && persisted == old(persisted) + r.results
        invariant Sequential(c) == Chain(r.results, gates[i..])
      {
        assert gates[i..][0] == gates[i] && gates[i..][1..] == gates[i + 1..];
        ghost var before := r.results;
        r := Append(gates[i], r.results);
        assert Chain(before, gates[i..]) == if r.Failed? then r else Chain(r.results, gates[i + 1..]);
        if r.Failed? {
          return;
        }
      }
    }

    /** The parallel path after the executor has reported: the map by role, then the results in gate order. */
    method RunParallel(c: Candidate, results: seq<SE.TaskResult<GateResult>>) returns (r: Summary)
      ensures r == Parallel(c, results)
    {
      if c.syntax.Raises? {
        return Failed(c.syntax.error);
      }
      if c.syntax.result.status != PASS {
        return Summary([c.syntax.result]);
      }
      if c.quality.Raises? {
        return Failed(c.quality.error);
      }
      if c.quality.result.status != PASS {
        return Summary([c.syntax.result, c.quality.result]);
      }
      var gates := [c.syntax.result, c.quality.result];
      ghost var done := gates;
      var resultMap: map<string, Option<GateResult>> := map[];
      for i := 0 to |results|
        invariant forall role :: Lookup(results[..i], role) == if role in resultMap then resultMap[role] else None
      {
        assert results[..i + 1][..i] == results[..i];
        if results[i].status == SE.Ok {
          resultMap := resultMap[results[i].role := results[i].output];
        }
      }
      assert results[..|results|] == results;
      for i := 0 to |ROLES|
        invariant Collect(done, results, ROLES) == Collect(gates, results, ROLES[i..])
      {
        assert ROLES[i..][1..] == ROLES[i + 1..];
        if ROLES[i] in resultMap && resultMap[ROLES[i]].Some? {
          gates := gates + [resultMap[ROLES[i]].value];
        }
      }
      r := Summary(gates);
    }
  }
}

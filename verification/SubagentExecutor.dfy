/** Tasks under a semaphore (agents/orchestration/subagent_executor.py), as interleaved steps.

    A task waits for a permit, runs until its function returns, raises or exceeds the timeout, and gives the
    permit back; the results are gathered in task order. */
module SubagentExecutor {
  import opened Common

  datatype Task = Task(id: string, role: string)

  datatype Outcome<O> = Returned(output: O) | Raised(error: string) | Expired

  datatype Status = Ok | Error | Timeout

  datatype TaskResult<O> = TaskResult(id: string, role: string, status: Status, output: Option<O>)

  datatype Phase<O> = Queued | Running | Done(outcome: Outcome<O>)

  datatype State<O> = State(permits: int, phases: seq<Phase<O>>)

  datatype Event<O> = Start(i: nat) | Finish(i: nat, outcome: Outcome<O>)

  function AllQueued<O>(n: nat): seq<Phase<O>> {
    seq(n, _ => Queued)
  }

  function Initial<O>(maxParallelism: int, n: nat): State<O> {
    State(Max(1, maxParallelism), AllQueued(n))
  }

  predicate Enabled<O>(s: State<O>, e: Event<O>) {
    e.i < |s.phases| && if e.Start? then s.phases[e.i].Queued? && s.permits > 0 else s.phases[e.i].Running?
  }

  function Apply<O>(s: State<O>, e: Event<O>): State<O>
    requires Enabled(s, e)
  {
    match e
    case Start(i) => State(s.permits - 1, s.phases[i := Running])
    case Finish(i, outcome) => State(s.permits + 1, s.phases[i := Done(outcome)])
  }

  function InFlight<O>(phases: seq<Phase<O>>): nat {
    if phases == [] then 0
    else InFlight(phases[..|phases| - 1]) + if phases[|phases| - 1].Running? then 1 else 0
  }

  /** Two steps for a queued task, one for a running one. */
  function StepsLeft<O>(phases: seq<Phase<O>>): nat {
    if phases == [] then 0
    else
      StepsLeft(phases[..|phases| - 1])
      + (match phases[|phases| - 1] case Queued => 2 case Running => 1 case Done(_) => 0)
  }

  lemma {:induction false} UpdateCounts<O>(phases: seq<Phase<O>>, i: nat, p: Phase<O>)
    requires i < |phases|
    ensures InFlight(phases[i := p]) == InFlight(phases) - (if phases[i].Running? then 1 else 0) + (if p.Running? then 1 else 0)
    ensures StepsLeft(phases[i := p]) == StepsLeft(phases)
      - (match phases[i] case Queued => 2 case Running => 1 case Done(_) => 0)
      + (match p case Queued => 2 case Running => 1 case Done(_) => 0)
  {
    var n := |phases| - 1;
    if i < n {
      UpdateCounts(phases[..n], i, p);
      assert phases[i := p][..n] == phases[..n][i := p];
    } else {
      assert phases[i := p][..n] == phases[..n];
    }
  }

  lemma {:induction false} InitialCounts<O>(n: nat)
    ensures InFlight(AllQueued<O>(n)) == 0 && StepsLeft(AllQueued<O>(n)) == 2 * n
  {
    if n > 0 {
      InitialCounts<O>(n - 1);
      assert AllQueued<O>(n)[..n - 1] == AllQueued<O>(n - 1);
    }
  }

  ghost predicate RunFrom<O(!new)>(maxParallelism: int, n: nat, events: seq<Event<O>>, states: seq<State<O>>) {
    && |states| == |events| + 1 && states[0] == Initial(maxParallelism, n)
    && forall i :: 0 <= i < |events| ==> Enabled(states[i], events[i]) && states[i + 1] == Apply(states[i], events[i])
  }

  /** In every interleaving at most max(1, maxParallelism) tasks run at once, and after k steps exactly
      2n - k steps are left. */
  lemma {:induction false} BoundedParallelism<O(!new)>(
      maxParallelism: int, n: nat, events: seq<Event<O>>, states: seq<State<O>>, k: nat)
    requires RunFrom(maxParallelism, n, events, states) && k < |states|
    ensures var s := states[k];
      && |s.phases| == n && s.permits >= 0 && s.permits + InFlight(s.phases) == Max(1, maxParallelism)
      && StepsLeft(s.phases) + k == 2 * n
  {
    if k == 0 {
      InitialCounts<O>(n);
    } else {
      BoundedParallelism(maxParallelism, n, events, states, k - 1);
      var e := events[k - 1];
      UpdateCounts(states[k - 1].phases, e.i, if e.Start? then Running else Done(e.outcome));
    }
  }

  lemma {:induction false} NothingLeft<O>(phases: seq<Phase<O>>, i: nat)
    requires StepsLeft(phases) == 0 && i < |phases|
    ensures phases[i].Done?
  {
    if i < |phases| - 1 {
      NothingLeft(phases[..|phases| - 1], i);
    }
  }

  lemma {:induction false} NoneInFlight<O>(phases: seq<Phase<O>>)
    requires forall i :: 0 <= i < |phases| ==> !phases[i].Running?
    ensures InFlight(phases) == 0
  {
    if phases != [] {
      NoneInFlight(phases[..|phases| - 1]);
    }
  }

  /** No interleaving gets stuck: while a task is not done, some step is possible. */
  lemma NeverStuck<O(!new)>(
      maxParallelism: int, n: nat, events: seq<Event<O>>, states: seq<State<O>>, k: nat, i: nat, o: Outcome<O>)
    requires RunFrom(maxParallelism, n, events, states) && k < |states| && i < n
    ensures var s := states[k];
      i < |s.phases| && (s.phases[i].Done? || exists j: nat :: Enabled(s, Start(j)) || Enabled(s, Finish(j, o)))
  {
    BoundedParallelism(maxParallelism, n, events, states, k);
    var s := states[k];
    if j :| 0 <= j < n && s.phases[j].Running? {
      assert Enabled(s, Finish(j, o));
    } else {
      NoneInFlight(s.phases);
      if !s.phases[i].Done? {
        assert Enabled(s, Start(i));
      }
    }
  }

  /** Once a task is done its outcome is the one its finishing step brought. */
  ghost predicate Follows<O(!new)>(s: State<O>, outcomes: seq<Outcome<O>>) {
    |s.phases| == |outcomes| && forall i :: 0 <= i < |outcomes| && s.phases[i].Done? ==> s.phases[i].outcome == outcomes[i]
  }

  lemma {:induction false} RunFollows<O(!new)>(
      maxParallelism: int, outcomes: seq<Outcome<O>>, events: seq<Event<O>>, states: seq<State<O>>, k: nat)
    requires RunFrom(maxParallelism, |outcomes|, events, states) && k < |states|
    requires forall e :: e in events && e.Finish? && e.i < |outcomes| ==> e.outcome == outcomes[e.i]
    ensures Follows(states[k], outcomes)
  {
    if k > 0 {
      RunFollows(maxParallelism, outcomes, events, states, k - 1);
      assert events[k - 1] in events;
    }
  }

  /** After 2n steps every task is done, whatever the order of the steps, and the final state depends only on
      what each task's function did. */
  lemma OrderIndependent<O(!new)>(
      maxParallelism: int, outcomes: seq<Outcome<O>>, events: seq<Event<O>>, states: seq<State<O>>)
    requires RunFrom(maxParallelism, |outcomes|, events, states) && |events| == 2 * |outcomes|
    requires forall e :: e in events && e.Finish? && e.i < |outcomes| ==> e.outcome == outcomes[e.i]
    ensures states[|events|].phases == seq(|outcomes|, i requires 0 <= i < |outcomes| => Done(outcomes[i]))
  {
    var s := states[|events|];
    BoundedParallelism(maxParallelism, |outcomes|, events, states, |events|);
    RunFollows(maxParallelism, outcomes, events, states, |events|);
    forall i | 0 <= i < |outcomes| ensures s.phases[i] == Done(outcomes[i]) {
      NothingLeft(s.phases, i);
    }
  }

  // ---------------------------------------------------------------- the report

  function StatusOf<O>(o: Outcome<O>): Status {
    match o case Returned(_) => Ok case Raised(_) => Error case Expired => Timeout
  }

  function ResultOf<O>(t: Task, o: Outcome<O>): TaskResult<O> {
    TaskResult(t.id, t.role, StatusOf(o), if o.Returned? then Some(o.output) else None)
  }

  /** What `gather` returns: the results in task order. */
  function Gather<O>(tasks: seq<Task>, phases: seq<Phase<O>>): seq<TaskResult<O>>
    requires |phases| == |tasks| && forall i :: 0 <= i < |phases| ==> phases[i].Done?
  {
    seq(|tasks|, i requires 0 <= i < |tasks| => ResultOf(tasks[i], phases[i].outcome))
  }

  function CountStatus<O>(results: seq<TaskResult<O>>, status: Status): nat {
    if results == [] then 0
    else CountStatus(results[..|results| - 1], status) + if results[|results| - 1].status == status then 1 else 0
  }

  function EstimatedWaves(n: nat, maxParallelism: nat): nat
    requires maxParallelism > 0
  {
    if n == 0 then 0 else Max(1, (n + maxParallelism - 1) / maxParallelism)
  }

  /** The results of a finished batch: one for every task, in task order, under its id and role, with the status of how
      its function ended, and an output exactly if that was a return. */
  lemma GatherInOrder<O>(tasks: seq<Task>, outcomes: seq<Outcome<O>>)
    requires |tasks| == |outcomes|
    ensures var phases := seq(|outcomes|, i requires 0 <= i < |outcomes| => Done(outcomes[i]));
      var results := Gather(tasks, phases);
      && |results| == |tasks|
      && forall i :: 0 <= i < |tasks| ==>
           && results[i].id == tasks[i].id && results[i].role == tasks[i].role
           && results[i].status == (if outcomes[i].Returned? then Ok else if outcomes[i].Raised? then Error else Timeout)
           && results[i].output == if outcomes[i].Returned? then Some(outcomes[i].output) else None
  {
  }

  /** The positions of a sequence of truth values that are true. */
  function Trues(marks: seq<bool>): set<nat> {
    set i: nat | i < |marks| && marks[i]
  }

  lemma TruesOneMore(marks: seq<bool>, mark: bool)
    ensures |Trues(marks + [mark])| == |Trues(marks)| + if mark then 1 else 0
  {
    assert Trues(marks + [mark]) == Trues(marks) + if mark then {|marks|} else {};
  }

  /** A count of the report is the number of results with that status. */
  lemma {:induction false} CountIsNumber<O>(results: seq<TaskResult<O>>, status: Status, marks: seq<bool>)
    requires |marks| == |results| && forall i :: 0 <= i < |marks| ==> marks[i] == (results[i].status == status)
    ensures CountStatus(results, status) == |Trues(marks)|
  {
    if results != [] {
      var n := |results| - 1;
      CountIsNumber(results[..n], status, marks[..n]);
      LastApart(marks);
      TruesOneMore(marks[..n], marks[n]);
    }
  }

  /** The tasks in flight are those running. */
  lemma {:induction false} InFlightIsNumber<O>(phases: seq<Phase<O>>, marks: seq<bool>)
    requires |marks| == |phases| && forall i :: 0 <= i < |marks| ==> marks[i] == phases[i].Running?
    ensures InFlight(phases) == |Trues(marks)|
  {
    if phases != [] {
      var n := |phases| - 1;
      InFlightIsNumber(phases[..n], marks[..n]);
      LastApart(marks);
      TruesOneMore(marks[..n], marks[n]);
    }
  }

  /** The three counts of the report add up to the number of tasks. */
  lemma {:induction false} CountsAddUp<O>(results: seq<TaskResult<O>>)
    ensures CountStatus(results, Ok) + CountStatus(results, Error) + CountStatus(results, Timeout) == |results|
  {
    if results != [] {
      CountsAddUp(results[..|results| - 1]);
    }
  }

  /** The estimate is the least number of waves that holds all tasks. */
  lemma WavesAreLeast(n: nat, maxParallelism: nat)
    requires maxParallelism > 0
    ensures var w := EstimatedWaves(n, maxParallelism);
      n <= w * maxParallelism && (n > 0 ==> (w - 1) * maxParallelism < n)
  {
    if n > 0 {
      var q, m := (n + maxParallelism - 1) / maxParallelism, (n + maxParallelism - 1) % maxParallelism;
      assert n + maxParallelism - 1 == q * maxParallelism + m && 0 <= m < maxParallelism;
      assert (q - 1) * maxParallelism == q * maxParallelism - maxParallelism;
    }
  }

  /** One batch of tasks with its semaphore; each method is one step of `execute_one`. */
  class Batch<O> {
    var permits: int
    var phases: seq<Phase<O>>

    constructor (maxParallelism: int, n: nat)
      ensures View() == Initial(maxParallelism, n)
    {
      permits := Max(1, maxParallelism);
      phases := AllQueued(n);
    }

    function View(): State<O>
      reads this
    {
      State(permits, phases)
    }

    method EnterSemaphore(i: nat)
      requires Enabled(View(), Start(i))
      modifies this
      ensures View() == Apply(old(View()), Start(i))
      ensures old(permits) > 0 && permits == old(permits) - 1 && phases == old(phases)[i := Running]
    {
      permits := permits - 1;
      phases := phases[i := Running];
    }

    /** The awaited function is over; leaving the block releases the permit on every path. */
    method LeaveSemaphore(i: nat, outcome: Outcome<O>) returns (status: Status)
      requires Enabled(View(), Finish(i, outcome))
      modifies this
      ensures View() == Apply(old(View()), Finish(i, outcome)) && status == StatusOf(outcome)
      ensures permits == old(permits) + 1 && phases == old(phases)[i := Done(outcome)]
      ensures status == if outcome.Returned? then Ok else if outcome.Raised? then Error else Timeout
    {
      match outcome {
        case Returned(_) => status := Ok;
        case Expired => status := Timeout;
        case Raised(_) => status := Error;
      }
      permits := permits + 1;
      phases := phases[i := Done(outcome)];
    }
  }
}

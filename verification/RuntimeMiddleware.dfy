/** Nested middleware with a retry loop around every layer (agents/orchestration/runtime_middleware.py).

    An entry of a stage retries everything below it, so the number of visits grows exponentially with depth.
    The loop gives up when `attempts > max_retries + 1`, that is after max_retries + 2 attempts. */
module RuntimeMiddleware {
  import opened Common

  datatype Stage = Stage(name: string, flag: Option<string>)

  /** The payload's flags, with their truth values. */
  type Payload = map<string, bool>

  datatype Checkpoint = Checkpoint(ok: bool, attempt: nat, error: string)

  predicate Satisfied(s: Stage, payload: Payload) {
    s.flag.None? || (s.flag.value in payload && payload[s.flag.value])
  }

  /** The index of the first stage from i on whose flag is missing. */
  function FirstMissing(stages: seq<Stage>, payload: Payload, i: nat): (d: nat)
    requires i <= |stages|
    ensures i <= d <= |stages|
    ensures d < |stages| ==> !Satisfied(stages[d], payload)
    ensures forall j :: i <= j < d ==> Satisfied(stages[j], payload)
    decreases |stages| - i
  {
    if i == |stages| || !Satisfied(stages[i], payload) then i else FirstMissing(stages, payload, i + 1)
  }

  function Attempts(maxRetries: nat): nat {
    maxRetries + 2
  }

  function MissingFlag(s: Stage): string {
    "required flag missing: " + if s.flag.Some? then s.flag.value else ""
  }

  function Repeat(t: seq<string>, k: nat): seq<string> {
    if k == 0 then [] else Repeat(t, k - 1) + t
  }

  /** The timeline of an entry at stage i when stage d refuses. */
  function Failing(stages: seq<Stage>, i: nat, d: nat, a: nat): seq<string>
    requires i <= d < |stages|
    decreases d - i
  {
    Repeat([stages[i].name] + (if i == d then [] else Failing(stages, i + 1, d, a)), a)
  }

  function Passing(stages: seq<Stage>, i: nat): seq<string>
    requires i <= |stages|
    decreases |stages| - i
  {
    if i == |stages| then ["terminal"] else [stages[i].name] + Passing(stages, i + 1)
  }

  function Timeline(stages: seq<Stage>, payload: Payload, i: nat, a: nat): seq<string>
    requires i <= |stages|
  {
    var d := FirstMissing(stages, payload, i);
    if d == |stages| then Passing(stages, i) else Failing(stages, i, d, a)
  }

  // ---------------------------------------------------------------- counting visits

  function Count(t: seq<string>, s: string): nat {
    multiset(t)[s]
  }

  function Pow(a: nat, n: nat): nat {
    if n == 0 then 1 else a * Pow(a, n - 1)
  }

  /** The sum of a^(j - i + 1) over the stages j in i..d that are named s. */
  function Visits(stages: seq<Stage>, i: nat, d: nat, a: nat, s: string): nat
    requires d <= |stages|
    decreases d
  {
    if d <= i then 0
    else Visits(stages, i, d - 1, a, s) + if stages[d - 1].name == s then Pow(a, d - i) else 0
  }

  function Product(a: nat, n: nat): nat {
    a * n
  }

  lemma {:induction false} RepeatCount(t: seq<string>, k: nat, s: string)
    ensures Count(Repeat(t, k), s) == Product(k, Count(t, s))
  {
    if k > 0 {
      RepeatCount(t, k - 1, s);
      CountConcat(Repeat(t, k - 1), t, s);
      ProductOneMore(k, Count(t, s));
    }
  }

  lemma CountConcat(a: seq<string>, b: seq<string>, s: string)
    ensures Count(a + b, s) == Count(a, s) + Count(b, s)
  {
  }

  lemma ProductOneMore(k: nat, n: nat)
    requires k > 0
    ensures Product(k, n) == Product(k - 1, n) + n
  {
  }

  lemma {:induction false} VisitsFromHead(stages: seq<Stage>, i: nat, d: nat, a: nat, s: string)
    requires i < d <= |stages|
    ensures Visits(stages, i, d, a, s)
         == Product(a, (if stages[i].name == s then 1 else 0) + Visits(stages, i + 1, d, a, s))
    decreases d
  {
    var head := if stages[i].name == s then 1 else 0;
    if d == i + 1 {
      assert Visits(stages, i, i, a, s) == 0 && Visits(stages, i + 1, d, a, s) == 0;
      assert Pow(a, 1) == a * Pow(a, 0) == a;
      assert Product(a, 1) == a && Product(a, 0) == 0;
    } else {
      VisitsFromHead(stages, i, d - 1, a, s);
      var last := if stages[d - 1].name == s then Pow(a, d - i - 1) else 0;
      Distribute(a, head + Visits(stages, i + 1, d - 1, a, s), last);
      assert Product(a, 0) == 0 && Product(a, Pow(a, d - i - 1)) == Pow(a, d - i);
    }
  }

  lemma Distribute(a: nat, x: nat, y: nat)
    ensures Product(a, x + y) == Product(a, x) + Product(a, y)
  {
  }

  /** With stage d refusing, a name appears once for every attempt of every stage that carries it:
      the sum of A^(j+1) over the stages j up to d with that name, and nothing below d is ever reached. */
  lemma {:induction false} FailingCount(stages: seq<Stage>, i: nat, d: nat, a: nat, s: string)
    requires i <= d < |stages|
    ensures Count(Failing(stages, i, d, a), s) == Visits(stages, i, d + 1, a, s)
    decreases d - i
  {
    if i == d {
      assert Count([], s) == Visits(stages, i + 1, d + 1, a, s);
      FailingStep(stages, i, d, a, s, []);
    } else {
      FailingCount(stages, i + 1, d, a, s);
      FailingStep(stages, i, d, a, s, Failing(stages, i + 1, d, a));
    }
  }

  lemma FailingStep(stages: seq<Stage>, i: nat, d: nat, a: nat, s: string, below: seq<string>)
    requires i <= d < |stages| && Count(below, s) == Visits(stages, i + 1, d + 1, a, s)
    ensures Count(Repeat([stages[i].name] + below, a), s) == Visits(stages, i, d + 1, a, s)
  {
    CountCons(stages[i].name, below, s);
    RepeatCount([stages[i].name] + below, a, s);
    VisitsFromHead(stages, i, d + 1, a, s);
  }

  lemma CountCons(x: string, t: seq<string>, s: string)
    ensures Count([x] + t, s) == (if x == s then 1 else 0) + Count(t, s)
  {
  }

  ghost predicate DistinctNames(stages: seq<Stage>) {
    forall i, j :: 0 <= i < j < |stages| ==> stages[i].name != stages[j].name
  }

  lemma {:induction false} VisitsOfOne(stages: seq<Stage>, d: nat, a: nat, k: nat)
    requires DistinctNames(stages) && d <= |stages| && k < |stages|
    ensures Visits(stages, 0, d, a, stages[k].name) == if k < d then Pow(a, k + 1) else 0
    decreases d
  {
    if d > 0 {
      VisitsOfOne(stages, d - 1, a, k);
    }
  }

  lemma {:induction false} VisitsOfStranger(stages: seq<Stage>, d: nat, a: nat, s: string)
    requires d <= |stages| && forall j :: 0 <= j < d ==> stages[j].name != s
    ensures Visits(stages, 0, d, a, s) == 0
    decreases d
  {
    if d > 0 {
      VisitsOfStranger(stages, d - 1, a, s);
    }
  }

  /** Stage k is entered exactly A^(k+1) times down to the refusing stage d, later stages and the terminal
      never. */
  lemma VisitCounts(stages: seq<Stage>, payload: Payload, maxRetries: nat, k: nat)
    requires DistinctNames(stages) && FirstMissing(stages, payload, 0) < |stages| && k < |stages|
    ensures var d := FirstMissing(stages, payload, 0);
      var timeline := Timeline(stages, payload, 0, Attempts(maxRetries));
      && Count(timeline, stages[k].name) == (if k <= d then Pow(maxRetries + 2, k + 1) else 0)
      && ((forall j :: 0 <= j < |stages| ==> stages[j].name != "terminal") ==> Count(timeline, "terminal") == 0)
  {
    var d, a := FirstMissing(stages, payload, 0), Attempts(maxRetries);
    FailingCount(stages, 0, d, a, stages[k].name);
    FailingCount(stages, 0, d, a, "terminal");
    VisitsOfOne(stages, d + 1, a, k);
    if forall j :: 0 <= j < |stages| ==> stages[j].name != "terminal" {
      VisitsOfStranger(stages, d + 1, a, "terminal");
    }
  }

  lemma {:induction false} PassingIsOnceEach(stages: seq<Stage>, i: nat)
    requires i <= |stages|
    ensures var t := Passing(stages, i);
      |t| == |stages| - i + 1 && t[|stages| - i] == "terminal"
      && forall k :: i <= k < |stages| ==> t[k - i] == stages[k].name
    decreases |stages| - i
  {
    if i < |stages| {
      PassingIsOnceEach(stages, i + 1);
      var t, rest := Passing(stages, i), Passing(stages, i + 1);
      assert forall j :: 1 <= j < |t| ==> t[j] == rest[j - 1];
      forall k | i <= k < |stages| ensures t[k - i] == stages[k].name {
        assert k > i ==> t[k - i] == rest[k - (i + 1)];
      }
    }
  }

  // ---------------------------------------------------------------- the orchestrator

  /** The maps after every stage in i..d has written v last. */
  function Written<V>(stages: seq<Stage>, i: nat, d: nat, v: V): map<string, V>
    requires i <= d <= |stages|
    decreases d - i
  {
    if i == d then map[] else Written(stages, i + 1, d, v)[stages[i].name := v]
  }

  lemma {:induction false} WrittenKeys<V>(stages: seq<Stage>, i: nat, d: nat, v: V)
    requires i <= d <= |stages|
    ensures forall n :: n in Written(stages, i, d, v) <==> exists j :: i <= j < d && stages[j].name == n
    ensures forall n :: n in Written(stages, i, d, v) ==> Written(stages, i, d, v)[n] == v
    decreases d - i
  {
    if i < d {
      WrittenKeys(stages, i + 1, d, v);
    }
  }

  /** The mutable part of a context. */
  datatype Snap = Snap(timeline: seq<string>, checkpoints: map<string, Checkpoint>, retries: map<string, int>)

  datatype Result = Done | Raised(error: string)

  function ResultOf(stages: seq<Stage>, payload: Payload, i: nat): Result
    requires i <= |stages|
  {
    var d := FirstMissing(stages, payload, i);
    if d == |stages| then Done else Raised(MissingFlag(stages[d]))
  }

  /** What an entry at stage i leaves behind. */
  function Enter(stages: seq<Stage>, payload: Payload, i: nat, a: nat, s: Snap): Snap
    requires i <= |stages| && a > 0
  {
    var d := FirstMissing(stages, payload, i);
    if d == |stages| then
      Snap(s.timeline + Passing(stages, i),
           s.checkpoints + Written(stages, i, d, Checkpoint(true, 1, "")),
           s.retries + Written(stages, i, d, 0))
    else
      Snap(s.timeline + Failing(stages, i, d, a),
           s.checkpoints + Written(stages, i, d + 1, Checkpoint(false, a, MissingFlag(stages[d]))),
           s.retries + Written(stages, i, d + 1, a - 1))
  }

  /** The effect of `StageFlagMiddleware.run` at stage i. */
  function RunBelow(stages: seq<Stage>, payload: Payload, i: nat, a: nat, s: Snap): Snap
    requires i < |stages| && a > 0
  {
    if Satisfied(stages[i], payload) then Enter(stages, payload, i + 1, a, s) else s
  }

  /** The context after k failed attempts at stage i, d refusing. */
  function Tried(stages: seq<Stage>, i: nat, d: nat, a: nat, k: nat, s: Snap): Snap
    requires i <= d < |stages| && a > 0
  {
    var below := if i == d then [] else Failing(stages, i + 1, d, a);
    if k == 0 then s
    else
      Snap(s.timeline + Repeat([stages[i].name] + below, k),
           (s.checkpoints + Written(stages, i + 1, d + 1, Checkpoint(false, a, MissingFlag(stages[d]))))
             [stages[i].name := Checkpoint(false, k, MissingFlag(stages[d]))],
           s.retries + Written(stages, i + 1, d + 1, a - 1))
  }

  lemma MergeLaws<V>(m: map<string, V>, w: map<string, V>, key: string, u: V, v: V)
    ensures (((m + w)[key := u]) + w)[key := v] == (m + w)[key := v]
    ensures (m + w) + w == m + w && m + map[] == m && (m + w)[key := v] == m + w[key := v]
  {
  }

  lemma Rebracket(t: seq<string>, r: seq<string>, x: seq<string>, below: seq<string>)
    ensures ((t + r) + x) + below == t + (r + (x + below))
    ensures (t + r) + x == t + (r + (x + []))
  {
  }

  lemma TryAgain(stages: seq<Stage>, payload: Payload, i: nat, d: nat, a: nat, k: nat, s: Snap)
    requires i <= d < |stages| && a > 0 && d == FirstMissing(stages, payload, i)
    ensures var before := Tried(stages, i, d, a, k, s);
      var entered := RunBelow(stages, payload, i, a, before.(timeline := before.timeline + [stages[i].name]));
      entered.(checkpoints := entered.checkpoints[stages[i].name := Checkpoint(false, k + 1, MissingFlag(stages[d]))])
        == Tried(stages, i, d, a, k + 1, s)
  {
    var below := if i == d then [] else Failing(stages, i + 1, d, a);
    var name := stages[i].name;
    Rebracket(s.timeline, Repeat([name] + below, k), [name], below);
    var w := Written(stages, i + 1, d + 1, Checkpoint(false, a, MissingFlag(stages[d])));
    var error := MissingFlag(stages[d]);
    MergeLaws(s.checkpoints, w, name, Checkpoint(false, k, error), Checkpoint(false, k + 1, error));
    MergeLaws(s.retries, Written(stages, i + 1, d + 1, a - 1), name, 0, 0);
    assert s.timeline + [] == s.timeline;
    assert i == d ==> w == map[];
    MergeLaws(s.checkpoints[name := Checkpoint(false, k, error)], map[], name,
                   Checkpoint(false, k, error), Checkpoint(false, k + 1, error));
    MergeLaws(s.checkpoints, map[], name, Checkpoint(false, k, error), Checkpoint(false, k + 1, error));
    var before := Tried(stages, i, d, a, k, s);
    var entered := RunBelow(stages, payload, i, a, before.(timeline := before.timeline + [name]));
    var after := Tried(stages, i, d, a, k + 1, s);
    assert entered.timeline == after.timeline;
    assert entered.checkpoints[name := Checkpoint(false, k + 1, error)] == after.checkpoints;
    assert entered.retries == after.retries;
  }

  lemma TriedAll(stages: seq<Stage>, payload: Payload, i: nat, d: nat, a: nat, s: Snap)
    requires i <= d < |stages| && a > 0 && d == FirstMissing(stages, payload, i)
    ensures var t := Tried(stages, i, d, a, a, s);
      t.(retries := t.retries[stages[i].name := a - 1]) == Enter(stages, payload, i, a, s)
  {
    var error := MissingFlag(stages[d]);
    MergeLaws(s.checkpoints, Written(stages, i + 1, d + 1, Checkpoint(false, a, error)), stages[i].name,
                   Checkpoint(false, a, error), Checkpoint(false, a, error));
    MergeLaws(s.retries, Written(stages, i + 1, d + 1, a - 1), stages[i].name, a - 1, a - 1);
    assert Written(stages, i, d + 1, a - 1) == Written(stages, i + 1, d + 1, a - 1)[stages[i].name := a - 1];
    assert Failing(stages, i, d, a)
      == Repeat([stages[i].name] + (if i == d then [] else Failing(stages, i + 1, d, a)), a);
    var t, u := Tried(stages, i, d, a, a, s), Enter(stages, payload, i, a, s);
    assert t.timeline == u.timeline;
    assert t.checkpoints == u.checkpoints;
    assert t.retries[stages[i].name := a - 1] == u.retries;
  }

  lemma EnterTerminal(stages: seq<Stage>, payload: Payload, a: nat, s: Snap)
    requires a > 0
    ensures Enter(stages, payload, |stages|, a, s) == s.(timeline := s.timeline + ["terminal"])
  {
    MergeLaws(s.checkpoints, map[], "", Checkpoint(true, 1, ""), Checkpoint(true, 1, ""));
    MergeLaws(s.retries, map[], "", 0, 0);
  }

  lemma PassedOnce(stages: seq<Stage>, payload: Payload, i: nat, a: nat, s: Snap)
    requires i < |stages| && a > 0 && FirstMissing(stages, payload, i) == |stages|
    ensures var t := RunBelow(stages, payload, i, a, s.(timeline := s.timeline + [stages[i].name]));
      Snap(t.timeline, t.checkpoints[stages[i].name := Checkpoint(true, 1, "")], t.retries[stages[i].name := 0])
        == Enter(stages, payload, i, a, s)
  {
    var name, d := stages[i].name, |stages|;
    MergeLaws(s.checkpoints, Written(stages, i + 1, d, Checkpoint(true, 1, "")), name,
                   Checkpoint(true, 1, ""), Checkpoint(true, 1, ""));
    MergeLaws(s.retries, Written(stages, i + 1, d, 0), name, 0, 0);
    assert (s.timeline + [name]) + Passing(stages, i + 1) == s.timeline + ([name] + Passing(stages, i + 1));
  }

  class RuntimeContext {
    const payload: Payload
    var timeline: seq<string>
    var checkpoints: map<string, Checkpoint>
    var retries: map<string, int>

    constructor (payload: Payload)
      ensures this.payload == payload && timeline == [] && checkpoints == map[] && retries == map[]
    {
      this.payload := payload;
      timeline, checkpoints, retries := [], map[], map[];
    }

    function View(): Snap
      reads this
    {
      Snap(timeline, checkpoints, retries)
    }
  }

  class RuntimeOrchestrator {
    const stages: seq<Stage>
    const maxRetries: nat

    constructor (stages: seq<Stage>, maxRetries: int)
      ensures this.stages == stages && this.maxRetries == Max(0, maxRetries)
    {
      this.stages := stages;
      this.maxRetries := Max(0, maxRetries);
    }

    /** The wrapped call of stage i. */
    method Wrapped(c: RuntimeContext, i: nat) returns (r: Result)
      requires i <= |stages|
      modifies c
      ensures r == ResultOf(stages, c.payload, i)
      ensures c.View() == Enter(stages, c.payload, i, Attempts(maxRetries), old(c.View()))
      decreases |stages| - i, 1
    {
      ghost var s, d, a := c.View(), FirstMissing(stages, c.payload, i), Attempts(maxRetries);
      if i == |stages| {
        c.timeline := c.timeline + ["terminal"];
        EnterTerminal(stages, c.payload, a, s);
        return Done;
      }
      var name := stages[i].name;
      var attempts := 0;
      while true
        invariant 0 <= attempts <= maxRetries + 1
        invariant if d == |stages| then attempts == 0 && c.View() == s
                  else c.View() == Tried(stages, i, d, a, attempts, s)
        decreases maxRetries + 1 - attempts
      {
        ghost var k := attempts;
        attempts := attempts + 1;
        c.timeline := c.timeline + [name];
        r := RunStage(c, i);
        ghost var t := c.View();
        if r == Done {
          assert d == |stages| && attempts == 1;
          assert t == RunBelow(stages, c.payload, i, a, s.(timeline := s.timeline + [name]));
          PassedOnce(stages, c.payload, i, a, s);
          c.checkpoints := c.checkpoints[name := Checkpoint(true, attempts, "")];
          c.retries := c.retries[name := attempts - 1];
          return;
        }
        c.checkpoints := c.checkpoints[name := Checkpoint(false, attempts, r.error)];
        TryAgain(stages, c.payload, i, d, a, k, s);
        assert c.View() == Tried(stages, i, d, a, attempts, s);
        if attempts > maxRetries + 1 {
          assert attempts == a && d < |stages|;
          TriedAll(stages, c.payload, i, d, attempts, s);
          c.retries := c.retries[name := attempts - 1];
          return;
        }
      }
    }

    /** `StageFlagMiddleware.run`: a required flag that is absent or false raises before anything beneath runs. */
    method RunStage(c: RuntimeContext, i: nat) returns (r: Result)
      requires i < |stages|
      modifies c
      ensures r == ResultOf(stages, c.payload, i)
      ensures c.View() == RunBelow(stages, c.payload, i, Attempts(maxRetries), old(c.View()))
      ensures stages[i].flag.Some? && !(stages[i].flag.value in c.payload && c.payload[stages[i].flag.value]) ==>
        r == Raised("required flag missing: " + stages[i].flag.value) && c.View() == old(c.View())
      decreases |stages| - i, 0
    {
      if stages[i].flag.Some? {
        var value := stages[i].flag.value in c.payload && c.payload[stages[i].flag.value];
        if !value {
          return Raised(MissingFlag(stages[i]));
        }
      }
      r := Wrapped(c, i + 1);
    }

    /** A run succeeds exactly when every required flag is present and true; otherwise d is the first stage whose
        flag is not. */
    method Execute(payload: Payload) returns (ok: bool, c: RuntimeContext, ghost d: nat)
      ensures fresh(c) && c.payload == payload
      ensures ok <==> forall j :: 0 <= j < |stages| && stages[j].flag.Some? ==>
        stages[j].flag.value in payload && payload[stages[j].flag.value]
      ensures !ok ==>
        && d < |stages| && stages[d].flag.Some?
        && !(stages[d].flag.value in payload && payload[stages[d].flag.value])
        && forall j :: 0 <= j < d && stages[j].flag.Some? ==>
             stages[j].flag.value in payload && payload[stages[j].flag.value]
      ensures ok ==> OnceEach(stages, c.View())
      ensures !ok ==> RefusedBy(stages, maxRetries, d, c.View())
      ensures c.timeline == Timeline(stages, payload, 0, Attempts(maxRetries))
    {
      c := new RuntimeContext(payload);
      var r := Wrapped(c, 0);
      ok := r == Done;
      d := FirstMissing(stages, payload, 0);
      FlagsDecide(stages, payload);
      if ok {
        PassedRun(stages, payload, maxRetries, c.View());
      } else {
        RefusedRun(stages, payload, maxRetries, d, c.View());
      }
    }
  }

  /** Every stage is entered once, in order, and then the terminal; all succeed at the first attempt. */
  ghost predicate OnceEach(stages: seq<Stage>, s: Snap) {
    && |s.timeline| == |stages| + 1 && s.timeline[|stages|] == "terminal"
    && (forall k :: 0 <= k < |stages| ==> s.timeline[k] == stages[k].name)
    && (forall n :: n in s.checkpoints <==> exists j :: 0 <= j < |stages| && stages[j].name == n)
    && (forall n :: n in s.checkpoints ==> s.checkpoints[n] == Checkpoint(true, 1, ""))
    && s.retries.Keys == s.checkpoints.Keys && (forall n :: n in s.retries ==> s.retries[n] == 0)
  }

  /** The stages down to d are entered in order, and then again and again; each of them ends with d's error after
      max_retries + 2 attempts, and nothing below d is entered. */
  ghost predicate RefusedBy(stages: seq<Stage>, maxRetries: nat, d: nat, s: Snap)
    requires d < |stages|
  {
    && RefusedTimeline(stages, maxRetries, d, s.timeline)
    && (forall n :: n in s.checkpoints <==> exists j :: 0 <= j < d + 1 && stages[j].name == n)
    && (forall n :: n in s.checkpoints ==>
          && !s.checkpoints[n].ok && s.checkpoints[n].attempt == maxRetries + 2 && stages[d].flag.Some?
          && s.checkpoints[n].error == "required flag missing: " + stages[d].flag.value)
    && s.retries.Keys == s.checkpoints.Keys && (forall n :: n in s.retries ==> s.retries[n] == maxRetries + 1)
  }

  ghost predicate RefusedTimeline(stages: seq<Stage>, maxRetries: nat, d: nat, timeline: seq<string>)
    requires d < |stages|
  {
    && |timeline| > d && (forall k :: 0 <= k <= d ==> timeline[k] == stages[k].name)
    && (DistinctNames(stages) ==> forall k :: 0 <= k < |stages| ==>
          Count(timeline, stages[k].name) == if k <= d then Pow(maxRetries + 2, k + 1) else 0)
  }

  lemma PassedRun(stages: seq<Stage>, payload: Payload, maxRetries: nat, s: Snap)
    requires FirstMissing(stages, payload, 0) == |stages|
    requires s == Enter(stages, payload, 0, Attempts(maxRetries), Snap([], map[], map[]))
    ensures s.timeline == Timeline(stages, payload, 0, Attempts(maxRetries))
    ensures OnceEach(stages, s)
  {
    EnterEmpty(stages, payload, Attempts(maxRetries));
    OnceWritten(stages, s);
  }

  lemma PassingFromTop(stages: seq<Stage>, t: seq<string>)
    requires t == Passing(stages, 0)
    ensures |t| == |stages| + 1 && t[|stages|] == "terminal"
    ensures forall k :: 0 <= k < |stages| ==> t[k] == stages[k].name
  {
    PassingIsOnceEach(stages, 0);
    forall k | 0 <= k < |stages| ensures t[k] == stages[k].name {
      assert t[k - 0] == stages[k].name;
    }
  }

  lemma OnceWritten(stages: seq<Stage>, s: Snap)
    requires s.timeline == Passing(stages, 0)
    requires s.checkpoints == Written(stages, 0, |stages|, Checkpoint(true, 1, ""))
    requires s.retries == Written(stages, 0, |stages|, 0)
    ensures OnceEach(stages, s)
  {
    PassingFromTop(stages, s.timeline);
    SameValue(stages, 0, |stages|, Checkpoint(true, 1, ""), 0, s.checkpoints, s.retries);
  }

  lemma RefusedRun(stages: seq<Stage>, payload: Payload, maxRetries: nat, d: nat, s: Snap)
    requires d == FirstMissing(stages, payload, 0) < |stages| && stages[d].flag.Some?
    requires s == Enter(stages, payload, 0, Attempts(maxRetries), Snap([], map[], map[]))
    ensures s.timeline == Timeline(stages, payload, 0, Attempts(maxRetries))
    ensures RefusedBy(stages, maxRetries, d, s)
  {
    EnterEmpty(stages, payload, Attempts(maxRetries));
    TimelineRefused(stages, payload, maxRetries, d, s.timeline);
    RefusedWritten(stages, maxRetries, d, s);
  }

  lemma RefusedWritten(stages: seq<Stage>, maxRetries: nat, d: nat, s: Snap)
    requires d < |stages| && stages[d].flag.Some? && RefusedTimeline(stages, maxRetries, d, s.timeline)
    requires s.checkpoints == Written(stages, 0, d + 1, Checkpoint(false, Attempts(maxRetries), MissingFlag(stages[d])))
    requires s.retries == Written(stages, 0, d + 1, Attempts(maxRetries) - 1)
    ensures RefusedBy(stages, maxRetries, d, s)
  {
    SameValue(stages, 0, d + 1, Checkpoint(false, Attempts(maxRetries), MissingFlag(stages[d])), Attempts(maxRetries) - 1,
      s.checkpoints, s.retries);
  }

  /** The first refusing stage, in terms of the payload alone. */
  lemma FlagsDecide(stages: seq<Stage>, payload: Payload)
    ensures var d := FirstMissing(stages, payload, 0);
      && (d == |stages| <==> forall j :: 0 <= j < |stages| && stages[j].flag.Some? ==>
            stages[j].flag.value in payload && payload[stages[j].flag.value])
      && (d < |stages| ==>
            && stages[d].flag.Some?
            && !(stages[d].flag.value in payload && payload[stages[d].flag.value]))
      && (forall j :: 0 <= j < d && stages[j].flag.Some? ==>
            stages[j].flag.value in payload && payload[stages[j].flag.value])
  {
    var d := FirstMissing(stages, payload, 0);
    assert d < |stages| ==> !Satisfied(stages[d], payload);
    assert forall j :: 0 <= j < d ==> Satisfied(stages[j], payload);
  }

  /** The two maps after the stages in i..d have written u and v last. */
  lemma SameValue<U, V>(stages: seq<Stage>, i: nat, d: nat, u: U, v: V, us: map<string, U>, vs: map<string, V>)
    requires i <= d <= |stages| && us == Written(stages, i, d, u) && vs == Written(stages, i, d, v)
    ensures forall n :: n in us <==> exists j :: i <= j < d && stages[j].name == n
    ensures us.Keys == vs.Keys && (forall n :: n in us ==> us[n] == u) && (forall n :: n in vs ==> vs[n] == v)
  {
    WrittenKeys(stages, i, d, u);
    WrittenKeys(stages, i, d, v);
  }

  /** An entry goes straight down to the refusing stage. */
  lemma {:induction false} FailingStarts(stages: seq<Stage>, i: nat, d: nat, a: nat)
    requires i <= d < |stages| && a > 0
    ensures var t := Failing(stages, i, d, a);
      |t| > d - i && forall k :: i <= k <= d ==> t[k - i] == stages[k].name
    decreases d - i
  {
    var below := if i == d then [] else Failing(stages, i + 1, d, a);
    RepeatStarts([stages[i].name] + below, a);
    if i < d {
      FailingStarts(stages, i + 1, d, a);
      forall k | i <= k <= d ensures Failing(stages, i, d, a)[k - i] == stages[k].name {
        assert k > i ==> ([stages[i].name] + below)[k - i] == below[k - (i + 1)];
      }
    }
  }

  lemma {:induction false} RepeatStarts(t: seq<string>, k: nat)
    requires k > 0
    ensures t <= Repeat(t, k)
  {
    if k > 1 {
      RepeatStarts(t, k - 1);
    } else {
      assert [] + t == t;
    }
  }

  lemma TimelineRefused(stages: seq<Stage>, payload: Payload, maxRetries: nat, d: nat, timeline: seq<string>)
    requires d == FirstMissing(stages, payload, 0) < |stages|
    requires timeline == Timeline(stages, payload, 0, Attempts(maxRetries))
    ensures RefusedTimeline(stages, maxRetries, d, timeline)
  {
    FailingStarts(stages, 0, d, Attempts(maxRetries));
    assert forall k :: 0 <= k <= d ==> timeline[k - 0] == stages[k].name;
    if DistinctNames(stages) {
      forall k | 0 <= k < |stages|
        ensures Count(timeline, stages[k].name) == if k <= d then Pow(maxRetries + 2, k + 1) else 0
      {
        VisitCounts(stages, payload, maxRetries, k);
      }
    }
  }

  lemma EnterEmpty(stages: seq<Stage>, payload: Payload, a: nat)
    requires a > 0
    ensures var d := FirstMissing(stages, payload, 0);
      var s := Enter(stages, payload, 0, a, Snap([], map[], map[]));
      && s.timeline == Timeline(stages, payload, 0, a)
      && (d == |stages| ==> s.checkpoints == Written(stages, 0, d, Checkpoint(true, 1, "")) && s.retries == Written(stages, 0, d, 0))
      && (d < |stages| ==>
            && s.checkpoints == Written(stages, 0, d + 1, Checkpoint(false, a, MissingFlag(stages[d])))
            && s.retries == Written(stages, 0, d + 1, a - 1))
  {
    assert forall t: seq<string> :: [] + t == t;
    assert forall m: map<string, Checkpoint> :: map[] + m == m;
    assert forall m: map<string, int> :: map[] + m == m;
  }
}

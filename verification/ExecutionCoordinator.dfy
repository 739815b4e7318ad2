/** Per-symbol mutual exclusion of orders (agents/execution/execution_coordinator.py), as interleaved steps.

    A step is the code between two awaits.  The steps of any number of calls of `execute_with_lock`
    interleave freely; a call waits for its symbol's lock, is granted it, resumes and runs its order function,
    and ends.  Before Python 3.12 `wait_for` runs `lock.acquire()` in a task of its own, so other steps can come
    between the grant and the resumption; a timeout or cancellation that arrives in between is dropped by
    `wait_for`, which returns the finished result.  From 3.12 on the two steps follow each other directly. */
module ExecutionCoordinator {
  import opened Common

  datatype Outcome = Returned | Failed(error: string) | TimedOut | CancelledWaiting | CancelledRunning

  datatype Phase = Waiting | Granted | Running | Ended(outcome: Outcome)

  datatype Call = Call(symbol: string, phase: Phase)

  /** `call` is the identity of the record object. */
  datatype Record = Record(call: nat, symbol: string, completed: bool, success: bool, error: Option<string>)

  /** `locks` gives the holder of every lock that exists; `calls` is what the event loop knows. */
  datatype State = State(
    locks: map<string, Option<nat>>, active: map<string, Record>, history: seq<Record>, calls: map<nat, Call>)

  datatype Event =
    | Begin(call: nat, symbol: string)
    | Acquire(call: nat)
    | Resume(call: nat)
    | Timeout(call: nat)
    | Finish(call: nat, error: Option<string>)
    | Cancel(call: nat)

  const IDLE := State(map[], map[], [], map[])

  predicate InPhase(s: State, call: nat, phase: Phase) {
    call in s.calls && s.calls[call].phase == phase
  }

  predicate Enabled(s: State, e: Event) {
    match e
    case Begin(c, _) => c !in s.calls
    case Acquire(c) => InPhase(s, c, Waiting) && s.calls[c].symbol in s.locks && s.locks[s.calls[c].symbol] == None
    case Resume(c) => InPhase(s, c, Granted)
    case Timeout(c) => InPhase(s, c, Waiting)
    case Finish(c, _) => InPhase(s, c, Running)
    case Cancel(c) => InPhase(s, c, Waiting) || InPhase(s, c, Running)
  }

  function Blank(c: nat, symbol: string): Record {
    Record(c, symbol, false, false, None)
  }

  function TimeoutError(symbol: string): string {
    "Lock acquisition timeout for " + symbol
  }

  /** The record that a call leaves, or none when it is cancelled while it waits. */
  function RecordOf(c: nat, symbol: string, o: Outcome): Option<Record> {
    match o
    case Returned => Some(Record(c, symbol, true, true, None))
    case Failed(error) => Some(Record(c, symbol, true, false, Some(error)))
    case TimedOut => Some(Record(c, symbol, false, false, Some(TimeoutError(symbol))))
    case CancelledWaiting => None
    case CancelledRunning => Some(Record(c, symbol, true, false, None))
  }

  function Logged(history: seq<Record>, r: Option<Record>): seq<Record> {
    history + if r.Some? then [r.value] else []
  }

  /** The `finally` clause: out of the active map, into the history, lock released. */
  function Leave(s: State, c: nat, o: Outcome): State
    requires InPhase(s, c, Running)
  {
    var symbol := s.calls[c].symbol;
    State(s.locks[symbol := None], s.active - {symbol}, Logged(s.history, RecordOf(c, symbol, o)),
          s.calls[c := Call(symbol, Ended(o))])
  }

  function GiveUp(s: State, c: nat, o: Outcome): State
    requires InPhase(s, c, Waiting)
  {
    var symbol := s.calls[c].symbol;
    s.(history := Logged(s.history, RecordOf(c, symbol, o)), calls := s.calls[c := Call(symbol, Ended(o))])
  }

  function Apply(s: State, e: Event): State
    requires Enabled(s, e)
  {
    match e
    case Begin(c, symbol) =>
      s.(locks := if symbol in s.locks then s.locks else s.locks[symbol := None],
         calls := s.calls[c := Call(symbol, Waiting)])
    case Acquire(c) =>
      var symbol := s.calls[c].symbol;
      s.(locks := s.locks[symbol := Some(c)], calls := s.calls[c := Call(symbol, Granted)])
    case Resume(c) =>
      var symbol := s.calls[c].symbol;
      s.(active := s.active[symbol := Blank(c, symbol)], calls := s.calls[c := Call(symbol, Running)])
    case Timeout(c) => GiveUp(s, c, TimedOut)
    case Finish(c, error) => Leave(s, c, if error.None? then Returned else Failed(error.value))
    case Cancel(c) => if s.calls[c].phase == Waiting then GiveUp(s, c, CancelledWaiting) else Leave(s, c, CancelledRunning)
  }

  /** How many records of the history belong to call c. */
  function RecordsOf(history: seq<Record>, c: nat): nat {
    if history == [] then 0
    else RecordsOf(history[..|history| - 1], c) + if history[|history| - 1].call == c then 1 else 0
  }

  /** A call that has ended, other than by cancellation while waiting, has left its record. */
  predicate Recorded(s: State, c: nat) {
    c in s.calls && s.calls[c].phase.Ended? && s.calls[c].phase.outcome != CancelledWaiting
  }

  predicate Holding(s: State, c: nat) {
    InPhase(s, c, Granted) || InPhase(s, c, Running)
  }

  ghost predicate LocksAreHeld(s: State) {
    && (forall x :: x in s.locks && s.locks[x].Some? ==>
          Holding(s, s.locks[x].value) && s.calls[s.locks[x].value].symbol == x)
    && (forall c :: Holding(s, c) ==> s.calls[c].symbol in s.locks && s.locks[s.calls[c].symbol] == Some(c))
    && (forall c :: InPhase(s, c, Waiting) ==> s.calls[c].symbol in s.locks)
  }

  ghost predicate ActiveIsRunning(s: State) {
    && (forall x :: x in s.active ==> x in s.locks && s.locks[x].Some? && s.active[x] == Blank(s.locks[x].value, x))
    && (forall x :: x in s.locks && s.locks[x].Some? ==> (x in s.active <==> InPhase(s, s.locks[x].value, Running)))
  }

  /** The locks are held by calls in order, and the active map fits them. */
  ghost predicate Held(s: State) {
    LocksAreHeld(s) && ActiveIsRunning(s)
  }

  ghost predicate HistoryIsExact(s: State) {
    && (forall c :: RecordsOf(s.history, c) == if Recorded(s, c) then 1 else 0)
    && (forall r :: r in s.history ==>
          Recorded(s, r.call) && RecordOf(r.call, s.calls[r.call].symbol, s.calls[r.call].phase.outcome) == Some(r))
  }

  ghost predicate Inv(s: State) {
    Held(s) && HistoryIsExact(s)
  }

  lemma LoggedRecords(history: seq<Record>, r: Option<Record>, c: nat)
    ensures RecordsOf(Logged(history, r), c) == RecordsOf(history, c) + if r.Some? && r.value.call == c then 1 else 0
  {
    if r.Some? {
      assert Logged(history, r)[..|history|] == history;
    } else {
      assert Logged(history, r) == history;
    }
  }

  /** Ending one call that has not ended keeps the history exact. */
  lemma EndKeepsHistory(s: State, t: State, c: nat, o: Outcome)
    requires HistoryIsExact(s) && c in s.calls && !s.calls[c].phase.Ended?
    requires t.calls == s.calls[c := Call(s.calls[c].symbol, Ended(o))]
    requires t.history == Logged(s.history, RecordOf(c, s.calls[c].symbol, o))
    ensures HistoryIsExact(t)
  {
    forall x ensures RecordsOf(t.history, x) == if Recorded(t, x) then 1 else 0 {
      LoggedRecords(s.history, RecordOf(c, s.calls[c].symbol, o), x);
    }
    forall r | r in t.history
      ensures Recorded(t, r.call) && RecordOf(r.call, t.calls[r.call].symbol, t.calls[r.call].phase.outcome) == Some(r)
    {
      if r in s.history {
        assert r.call != c;
      }
    }
  }

  lemma ApplyHistory(s: State, e: Event)
    requires HistoryIsExact(s) && Enabled(s, e)
    ensures HistoryIsExact(Apply(s, e))
  {
    match e
    case Begin(c, _) =>
    case Acquire(c) =>
    case Resume(c) =>
    case Timeout(c) => EndKeepsHistory(s, Apply(s, e), c, TimedOut);
    case Finish(c, error) => EndKeepsHistory(s, Apply(s, e), c, if error.None? then Returned else Failed(error.value));
    case Cancel(c) =>
      EndKeepsHistory(s, Apply(s, e), c, if s.calls[c].phase == Waiting then CancelledWaiting else CancelledRunning);
  }

  lemma BeginHeld(s: State, c: nat, symbol: string)
    requires Held(s) && Enabled(s, Begin(c, symbol))
    ensures Held(Apply(s, Begin(c, symbol)))
  {
  }

  lemma AcquireHeld(s: State, c: nat)
    requires Held(s) && Enabled(s, Acquire(c))
    ensures Held(Apply(s, Acquire(c)))
  {
  }

  lemma ResumeHeld(s: State, c: nat)
    requires Held(s) && Enabled(s, Resume(c))
    ensures Held(Apply(s, Resume(c)))
  {
  }

  lemma GiveUpHeld(s: State, c: nat, o: Outcome)
    requires Held(s) && InPhase(s, c, Waiting)
    ensures Held(GiveUp(s, c, o))
  {
  }

  lemma LeaveHeld(s: State, c: nat, o: Outcome)
    requires Held(s) && InPhase(s, c, Running)
    ensures Held(Leave(s, c, o))
  {
  }

  lemma ApplyHeld(s: State, e: Event)
    requires Held(s) && Enabled(s, e)
    ensures Held(Apply(s, e))
  {
    match e
    case Begin(c, symbol) => BeginHeld(s, c, symbol);
    case Acquire(c) => AcquireHeld(s, c);
    case Resume(c) => ResumeHeld(s, c);
    case Timeout(c) => GiveUpHeld(s, c, TimedOut);
    case Finish(c, error) => LeaveHeld(s, c, if error.None? then Returned else Failed(error.value));
    case Cancel(c) =>
      if s.calls[c].phase == Waiting {
        GiveUpHeld(s, c, CancelledWaiting);
      } else {
        LeaveHeld(s, c, CancelledRunning);
      }
  }

  lemma ApplyInv(s: State, e: Event)
    requires Inv(s) && Enabled(s, e)
    ensures Inv(Apply(s, e))
  {
    ApplyHeld(s, e);
    ApplyHistory(s, e);
  }

  ghost predicate RunFrom(events: seq<Event>, states: seq<State>) {
    && |states| == |events| + 1 && states[0] == IDLE
    && forall i :: 0 <= i < |events| ==> Enabled(states[i], events[i]) && states[i + 1] == Apply(states[i], events[i])
  }

  /** The invariant holds after every step of every interleaving. */
  lemma {:induction false} EveryInterleaving(events: seq<Event>, states: seq<State>, i: nat)
    requires RunFrom(events, states) && i < |states|
    ensures Inv(states[i])
  {
    if i > 0 {
      EveryInterleaving(events, states, i - 1);
      ApplyInv(states[i - 1], events[i - 1]);
    }
  }

  /** In every interleaving at most one call per symbol holds the lock, and so at most one order function runs; the
      active map holds exactly the records of the running calls; and a call has one record once it has returned,
      failed, timed out or been cancelled while running, and none before -- nor ever, if it was cancelled while
      waiting. */
  lemma MutualExclusionAndHistory(events: seq<Event>, states: seq<State>, i: nat, c: nat, d: nat)
    requires RunFrom(events, states) && i < |states|
    ensures var s := states[i];
      && (Holding(s, c) && Holding(s, d) && s.calls[c].symbol == s.calls[d].symbol ==> c == d)
      && (InPhase(s, c, Running) <==> c in s.calls && s.calls[c].symbol in s.active && s.active[s.calls[c].symbol].call == c)
      && RecordsOf(s.history, c) == (if Recorded(s, c) then 1 else 0)
  {
    EveryInterleaving(events, states, i);
  }

  /** What a record of the history tells about its call: success that its order returned, an error with completion the
      one its order raised, an error without completion that it never got the lock, and neither that it was cancelled
      while its order ran. */
  lemma RecordsTell(events: seq<Event>, states: seq<State>, i: nat, r: Record)
    requires RunFrom(events, states) && i < |states| && r in states[i].history
    ensures r.call in states[i].calls && states[i].calls[r.call].phase.Ended? && r.symbol == states[i].calls[r.call].symbol
    ensures var o := states[i].calls[r.call].phase.outcome;
      && (r.success <==> o == Returned) && (r.completed <==> o != TimedOut)
      && (o.Failed? ==> r.error == Some(o.error))
      && (o == TimedOut ==> r.error == Some("Lock acquisition timeout for " + r.symbol))
      && (o == Returned || o == CancelledRunning ==> r.error == None)
      && o != CancelledWaiting
  {
    EveryInterleaving(events, states, i);
  }

  /** Between the steps of Python 3.12, when no call is granted and not yet resumed, the active map holds exactly the
      records of the lock holders. */
  lemma ActiveIsHeld(events: seq<Event>, states: seq<State>, i: nat, x: string)
    requires RunFrom(events, states) && i < |states| && forall c :: !InPhase(states[i], c, Granted)
    ensures var s := states[i];
      && (x in s.active <==> x in s.locks && s.locks[x].Some?)
      && (x in s.active ==> s.active[x].call == s.locks[x].value && InPhase(s, s.active[x].call, Running))
  {
    EveryInterleaving(events, states, i);
    var s := states[i];
    if x in s.locks && s.locks[x].Some? {
      assert Holding(s, s.locks[x].value);
    }
  }

  /** No lock outlives its holder: a waiting call can always either take its lock or wait for a call that holds it
      and can go on, and when nothing holds a lock every lock is free and the active map is empty. */
  lemma LocksAreReleased(events: seq<Event>, states: seq<State>, i: nat)
    requires RunFrom(events, states) && i < |states|
    ensures var s := states[i];
      && (forall c :: InPhase(s, c, Waiting) ==>
            || Enabled(s, Acquire(c))
            || exists d :: (Enabled(s, Resume(d)) || Enabled(s, Finish(d, None))) && s.calls[d].symbol == s.calls[c].symbol)
      && ((forall c :: !Holding(s, c)) ==> s.active == map[] && forall x :: x in s.locks ==> s.locks[x] == None)
  {
    EveryInterleaving(events, states, i);
    var s := states[i];
    forall c | InPhase(s, c, Waiting)
      ensures || Enabled(s, Acquire(c))
        || exists d :: (Enabled(s, Resume(d)) || Enabled(s, Finish(d, None))) && s.calls[d].symbol == s.calls[c].symbol
    {
      var x := s.calls[c].symbol;
      if s.locks[x].Some? {
        var d := s.locks[x].value;
        assert Holding(s, d);
        assert Enabled(s, Resume(d)) || Enabled(s, Finish(d, None));
      }
    }
  }

  // ---------------------------------------------------------------- the class

  /** Each method is one step of one call. */
  class ExecutionCoordinator {
    var symbolLocks: map<string, Option<nat>>
    var activeExecutions: map<string, Record>
    var executionHistory: seq<Record>
    ghost var calls: map<nat, Call>

    constructor ()
      ensures View() == IDLE
    {
      symbolLocks, activeExecutions, executionHistory, calls := map[], map[], [], map[];
    }

    ghost function View(): State
      reads this
    {
      State(symbolLocks, activeExecutions, executionHistory, calls)
    }

    /** Up to the lock: get or create the symbol's lock and start the record. */
    method Start(c: nat, symbol: string) returns (record: Record)
      requires Enabled(View(), Begin(c, symbol))
      modifies this
      ensures View() == Apply(old(View()), Begin(c, symbol)) && record == Blank(c, symbol)
    {
      if symbol !in symbolLocks {
        symbolLocks := symbolLocks[symbol := None];
      }
      record := Record(c, symbol, false, false, None);
      calls := calls[c := Call(symbol, Waiting)];
    }

    method OnTimeout(record: Record)
      requires Enabled(View(), Timeout(record.call)) && record == Blank(record.call, calls[record.call].symbol)
      modifies this
      ensures View() == Apply(old(View()), Timeout(record.call))
    {
      executionHistory := executionHistory + [record.(error := Some(TimeoutError(record.symbol)))];
      calls := calls[record.call := Call(record.symbol, Ended(TimedOut))];
    }

    /** `lock.acquire()` succeeds. */
    method Grant(record: Record)
      requires Enabled(View(), Acquire(record.call)) && record == Blank(record.call, calls[record.call].symbol)
      modifies this
      ensures View() == Apply(old(View()), Acquire(record.call))
    {
      symbolLocks := symbolLocks[record.symbol := Some(record.call)];
      calls := calls[record.call := Call(record.symbol, Granted)];
    }

    method OnAcquired(record: Record)
      requires Enabled(View(), Resume(record.call)) && record == Blank(record.call, calls[record.call].symbol)
      modifies this
      ensures View() == Apply(old(View()), Resume(record.call))
    {
      activeExecutions := activeExecutions[record.symbol := record];
      calls := calls[record.call := Call(record.symbol, Running)];
    }

    /** The order function has returned, raised, or been cancelled. */
    method OnOrderDone(record: Record, o: Outcome)
      requires InPhase(View(), record.call, Running) && record == Blank(record.call, calls[record.call].symbol)
      requires o.Returned? || o.Failed? || o.CancelledRunning?
      modifies this
      ensures View() == Leave(old(View()), record.call, o)
    {
      var done := record;
      if o.Returned? {
        done := done.(success := true);
      } else if o.Failed? {
        done := done.(error := Some(o.error));
      }
      done := done.(completed := true);
      activeExecutions := activeExecutions - {record.symbol};
      executionHistory := executionHistory + [done];
      symbolLocks := symbolLocks[record.symbol := None];
      calls := calls[record.call := Call(record.symbol, Ended(o))];
    }
  }
}

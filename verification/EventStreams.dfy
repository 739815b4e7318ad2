/** The retrying event bus over Redis streams (cryptoswarms/common/stream_bus.py), as a state machine.

    A log entry's id is its position; entries are never deleted, an acknowledgement only changes their
    status in the consumer group.  `held` are the delivered messages some worker still has in memory.
    A read uses the marker ">", so an entry is delivered to the group at most once. */
module EventStreams {
  import opened Common

  /** The event envelope; `body` is everything that a retry copies unchanged. */
  datatype Envelope = Envelope(
    eventId: string, body: string, attempts: Option<int>, lastError: Option<string>, deadLettered: bool)

  datatype Status = Fresh | Pending | Acked

  datatype Entry = Entry(stream: string, envelope: Envelope, status: Status)

  type Log = seq<Entry>

  function AttemptCount(env: Envelope): int {
    if env.attempts.None? then 0 else env.attempts.value
  }

  function WithRetry(env: Envelope, error: Option<string>): Envelope {
    env.(attempts := Some(AttemptCount(env) + 1), lastError := if error.Some? then error else env.lastError)
  }

  function Buried(env: Envelope, error: string): Envelope {
    env.(lastError := Some(error), deadLettered := true)
  }

  function DeadLetterName(stream: string): string {
    stream + ":dlq"
  }

  function MarkAcked(log: Log, id: nat): Log
    requires id < |log|
  {
    if log[id].status == Pending then log[id := log[id].(status := Acked)] else log
  }

  /** How one call of the handler ends.  An exception raised by the acknowledgement that follows a
      successful handler is caught by the same clause as a handler failure. */
  datatype Outcome = Succeeds | Fails(error: string) | AckRaises(error: string)

  /** Where the worker dies (or Redis stops answering) during the processing of one message. */
  datatype Stop = Completes | BeforeHandler | BeforeWrite | BeforeAck

  /** The copy that replaces a message whose processing failed. */
  function Successor(e: Entry, error: string, maxAttempts: int): Entry {
    if AttemptCount(e.envelope) + 1 >= maxAttempts
    then Entry(DeadLetterName(e.stream), Buried(e.envelope, error), Fresh)
    else Entry(e.stream, WithRetry(e.envelope, Some(error)), Fresh)
  }

  /** The effect on the log of processing message id. */
  function Processed(log: Log, id: nat, maxAttempts: int, outcome: Outcome, stop: Stop): Log
    requires id < |log|
  {
    if stop == BeforeHandler || stop == BeforeWrite then log
    else if outcome == Succeeds then
      if stop == BeforeAck then log else MarkAcked(log, id)
    else
      var written := log + [Successor(log[id], outcome.error, maxAttempts)];
      if stop == BeforeAck then written else MarkAcked(written, id)
  }

  // ---------------------------------------------------------------- runs

  /** One invocation of the handler on entry id, with the event and flag that entry carries. */
  datatype Call = Call(id: nat, eventId: string, dead: bool, ok: bool)

  /** `published` remembers each event as its first entry. */
  datatype System = System(log: Log, held: set<nat>, calls: seq<Call>, published: map<string, Entry>)

  datatype Action =
    | Publish(stream: string, envelope: Envelope)
    | Deliver(ids: set<nat>)
    | Process(id: nat, outcome: Outcome, stop: Stop)
    | Lose(ids: set<nat>)   // a worker dies between messages

  const EMPTY := System([], {}, [], map[])

  function Delivered(log: Log, ids: set<nat>): Log {
    seq(|log|, i requires 0 <= i < |log| =>
      if i in ids && log[i].status == Fresh then log[i].(status := Pending) else log[i])
  }

  /** Event ids are fresh, reads return fresh entries, a worker processes what it holds;
      an action that does not apply leaves the system as it is. */
  function Apply(maxAttempts: int, s: System, a: Action): System {
    match a
    case Publish(stream, env) =>
      if env.eventId in s.published || env.deadLettered then s
      else s.(log := s.log + [Entry(stream, env, Fresh)], published := s.published[env.eventId := Entry(stream, env, Fresh)])
    case Deliver(ids) =>
      s.(log := Delivered(s.log, ids),
         held := s.held + (set i | i in ids && i < |s.log| && s.log[i].status == Fresh))
    case Process(id, outcome, stop) =>
      if id !in s.held || id >= |s.log| then s
      else s.(log := Processed(s.log, id, maxAttempts, outcome, stop),
              held := s.held - {id},
              calls := if stop == BeforeHandler then s.calls else s.calls + [CallOf(s, id, outcome)])
    case Lose(ids) => s.(held := s.held - ids)
  }

  function CallOf(s: System, id: nat, outcome: Outcome): Call
    requires id < |s.log|
  {
    Call(id, s.log[id].envelope.eventId, s.log[id].envelope.deadLettered, !outcome.Fails?)
  }

  function Run(maxAttempts: int, actions: seq<Action>): System {
    if actions == [] then EMPTY
    else Apply(maxAttempts, Run(maxAttempts, actions[..|actions| - 1]), actions[|actions| - 1])
  }

  // ---------------------------------------------------------------- nothing is lost

  predicate Awaiting(s: System, i: nat)
    requires i < |s.log|
  {
    s.log[i].status == Fresh || i in s.held
  }

  predicate Succeeded(s: System, i: nat)
    requires i < |s.log|
  {
    Call(i, s.log[i].envelope.eventId, s.log[i].envelope.deadLettered, true) in s.calls
  }

  /** Entry i still carries its event: it is unacknowledged, or it was handled successfully. */
  predicate Carries(s: System, i: nat)
    requires i < |s.log|
  {
    s.log[i].status != Acked || Succeeded(s, i)
  }

  predicate HasEvent(s: System, i: nat, e: string) {
    i < |s.log| && s.log[i].envelope.eventId == e
  }

  ghost predicate WellFormed(s: System) {
    && (forall i :: i in s.held ==> i < |s.log| && s.log[i].status == Pending)
    && (forall i :: 0 <= i < |s.log| ==> EntryOnRecord(s, s.log[i]))
    && (forall e :: e in s.published ==> s.published[e].envelope.eventId == e)
    && (forall k :: 0 <= k < |s.calls| ==> CallOnRecord(s, s.calls[k]))
    && (forall k, l :: 0 <= k < l < |s.calls| ==> s.calls[k].id != s.calls[l].id)
  }

  /** A dead-letter stream of `home`: its name extended by one or more suffixes. */
  predicate DeadLetterStreamOf(stream: string, home: string) {
    |home| + 4 <= |stream| && stream[..|home|] == home && stream[|stream| - 4..] == ":dlq"
  }

  /** A copy has the body its event was published with, and sits in the stream it was published to
      or, once flagged, in a dead-letter stream of it. */
  ghost predicate EntryOnRecord(s: System, entry: Entry) {
    var env := entry.envelope;
    && env.eventId in s.published
    && env.body == s.published[env.eventId].envelope.body
    && (if env.deadLettered then DeadLetterStreamOf(entry.stream, s.published[env.eventId].stream)
        else entry.stream == s.published[env.eventId].stream)
  }

  ghost predicate CallOnRecord(s: System, c: Call) {
    && c.id < |s.log| && !Awaiting(s, c.id)
    && c.eventId == s.log[c.id].envelope.eventId && c.dead == s.log[c.id].envelope.deadLettered
  }

  ghost predicate NothingLost(s: System) {
    forall e :: e in s.published ==> exists i: nat :: HasEvent(s, i, e) && Carries(s, i)
  }

  lemma ApplyEntriesOnRecord(maxAttempts: int, s: System, a: Action, i: nat)
    requires WellFormed(s) && i < |Apply(maxAttempts, s, a).log|
    ensures EntryOnRecord(Apply(maxAttempts, s, a), Apply(maxAttempts, s, a).log[i])
  {
    if i < |s.log| {
      assert EntryOnRecord(s, s.log[i]);
    } else if a.Process? {
      assert EntryOnRecord(s, s.log[a.id]);
      SuccessorStream(s.log[a.id], a.outcome.error, maxAttempts, s.published[s.log[a.id].envelope.eventId].stream);
    }
  }

  lemma ApplyCallsOnRecord(maxAttempts: int, s: System, a: Action, k: nat)
    requires WellFormed(s) && k < |Apply(maxAttempts, s, a).calls|
    ensures CallOnRecord(Apply(maxAttempts, s, a), Apply(maxAttempts, s, a).calls[k])
    ensures forall l :: 0 <= l < k ==>
      Apply(maxAttempts, s, a).calls[l].id != Apply(maxAttempts, s, a).calls[k].id
  {
    if k < |s.calls| {
      assert CallOnRecord(s, s.calls[k]);
    } else {
      forall l | 0 <= l < k ensures s.calls[l].id != a.id {
        assert CallOnRecord(s, s.calls[l]);
      }
    }
  }

  lemma ApplyWellFormed(maxAttempts: int, s: System, a: Action)
    requires WellFormed(s)
    ensures WellFormed(Apply(maxAttempts, s, a))
  {
    var s' := Apply(maxAttempts, s, a);
    forall k | 0 <= k < |s'.calls|
      ensures CallOnRecord(s', s'.calls[k])
      ensures forall l :: 0 <= l < k ==> s'.calls[l].id != s'.calls[k].id
    {
      ApplyCallsOnRecord(maxAttempts, s, a, k);
    }
    forall i | 0 <= i < |s'.log| ensures EntryOnRecord(s', s'.log[i]) {
      ApplyEntriesOnRecord(maxAttempts, s, a, i);
    }
  }

  lemma SuccessorStream(e: Entry, error: string, maxAttempts: int, home: string)
    requires if e.envelope.deadLettered then DeadLetterStreamOf(e.stream, home) else e.stream == home
    ensures var n := Successor(e, error, maxAttempts);
      if n.envelope.deadLettered then DeadLetterStreamOf(n.stream, home) else n.stream == home
  {
    var name := DeadLetterName(e.stream);
    assert name[..|home|] == e.stream[..|home|] == home;
    assert name[|name| - 4..] == ":dlq";
  }

  lemma ApplyKeepsCarrier(maxAttempts: int, s: System, a: Action, e: string, i: nat) returns (j: nat)
    requires WellFormed(s) && HasEvent(s, i, e) && Carries(s, i)
    ensures var s' := Apply(maxAttempts, s, a); HasEvent(s', j, e) && Carries(s', j)
  {
    var s' := Apply(maxAttempts, s, a);
    j := i;
    if s.log[i].status == Acked {
      assert forall c :: c in s.calls ==> c in s'.calls;
    } else if a.Process? && a.id == i && i in s.held && s'.log[i].status == Acked {
      if a.outcome == Succeeds {
        assert s'.calls[|s.calls|] == CallOf(s, i, a.outcome);
      } else {
        j := |s.log|;
      }
    }
  }

  lemma ApplyLosesNothing(maxAttempts: int, s: System, a: Action)
    requires WellFormed(s) && NothingLost(s)
    ensures NothingLost(Apply(maxAttempts, s, a))
  {
    var s' := Apply(maxAttempts, s, a);
    forall e | e in s'.published ensures exists i: nat :: HasEvent(s', i, e) && Carries(s', i) {
      if e in s.published {
        var i: nat :| HasEvent(s, i, e) && Carries(s, i);
        var j := ApplyKeepsCarrier(maxAttempts, s, a, e, i);
      } else {
        assert HasEvent(s', |s.log|, e);
      }
    }
  }

  /** In every run -- any interleaving, crashes and failing acknowledgements included -- each published
      event has an unacknowledged or a successfully handled copy, with its body unchanged, and no copy is
      ever given to the handler twice. */
  lemma {:induction false} RunLosesNothing(maxAttempts: int, actions: seq<Action>)
    ensures WellFormed(Run(maxAttempts, actions))
    ensures NothingLost(Run(maxAttempts, actions))
  {
    if actions != [] {
      var before := actions[..|actions| - 1];
      RunLosesNothing(maxAttempts, before);
      ApplyWellFormed(maxAttempts, Run(maxAttempts, before), actions[|actions| - 1]);
      ApplyLosesNothing(maxAttempts, Run(maxAttempts, before), actions[|actions| - 1]);
    }
  }

  // ---------------------------------------------------------------- how often the handler runs

  function Limit(maxAttempts: int): int {
    Max(1, maxAttempts)
  }

  /** Handler calls on copies of e that are not in a dead-letter stream. */
  function CallsOn(calls: seq<Call>, e: string): nat {
    if calls == [] then 0
    else
      var last := calls[|calls| - 1];
      CallsOn(calls[..|calls| - 1], e) + if last.eventId == e && !last.dead then 1 else 0
  }

  /** The failing ones among them. */
  function FailuresOn(calls: seq<Call>, e: string): nat {
    if calls == [] then 0
    else
      var last := calls[|calls| - 1];
      FailuresOn(calls[..|calls| - 1], e) + if last.eventId == e && !last.dead && !last.ok then 1 else 0
  }

  lemma CallsOnAppend(calls: seq<Call>, c: Call, e: string)
    ensures CallsOn(calls + [c], e) == CallsOn(calls, e) + if c.eventId == e && !c.dead then 1 else 0
    ensures FailuresOn(calls + [c], e) == FailuresOn(calls, e) + if c.eventId == e && !c.dead && !c.ok then 1 else 0
  {
    assert (calls + [c])[..|calls|] == calls;
  }

  lemma {:induction false} NoCalls(calls: seq<Call>, e: string)
    requires forall c :: c in calls ==> c.eventId != e
    ensures CallsOn(calls, e) == 0 && FailuresOn(calls, e) == 0
  {
    if calls != [] {
      NoCalls(calls[..|calls| - 1], e);
    }
  }

  /** Copy i of e may still reach the handler outside the dead-letter streams. */
  predicate Live(s: System, i: nat, e: string) {
    HasEvent(s, i, e) && Awaiting(s, i) && !s.log[i].envelope.deadLettered
  }

  ghost predicate StartedAtZero(s: System, e: string) {
    e in s.published && AttemptCount(s.published[e].envelope) == 0
  }

  ghost predicate Bounded(maxAttempts: int, s: System, e: string) {
    && CallsOn(s.calls, e) <= Limit(maxAttempts)
    && (forall i: nat :: Live(s, i, e) ==>
          AttemptCount(s.log[i].envelope) == CallsOn(s.calls, e) < Limit(maxAttempts))
    && (forall i: nat, j: nat :: Live(s, i, e) && Live(s, j, e) ==> i == j)
  }

  /** An event that was never published has no copies and no handler calls. */
  lemma UnpublishedIsUnknown(s: System, e: string)
    requires WellFormed(s) && e !in s.published
    ensures forall i: nat :: !HasEvent(s, i, e)
    ensures CallsOn(s.calls, e) == 0 && FailuresOn(s.calls, e) == 0
  {
    forall c | c in s.calls ensures c.eventId != e {
      var k :| 0 <= k < |s.calls| && s.calls[k] == c;
      assert CallOnRecord(s, s.calls[k]);
      assert HasEvent(s, c.id, c.eventId);
    }
    NoCalls(s.calls, e);
  }

  /** What processing message id leaves in the log: the other entries, the same message possibly
      acknowledged, and at most one new entry, the successor of id. */
  lemma ProcessEffect(maxAttempts: int, s: System, a: Action)
    requires WellFormed(s) && a.Process? && a.id in s.held
    ensures a.id < |s.log|
    ensures var s' := Apply(maxAttempts, s, a);
      && |s.log| <= |s'.log| <= |s.log| + 1
      && (forall i :: 0 <= i < |s.log| && i != a.id ==> s'.log[i] == s.log[i])
      && s'.log[a.id].envelope == s.log[a.id].envelope
      && (|s'.log| > |s.log| ==>
            && !a.outcome.Succeeds? && a.stop != BeforeHandler
            && s'.log[|s.log|] == Successor(s.log[a.id], a.outcome.error, maxAttempts))
      && s'.held == s.held - {a.id} && |s.log| !in s'.held
  {
  }

  lemma ProcessBounded(maxAttempts: int, s: System, a: Action, e: string)
    requires WellFormed(s) && Bounded(maxAttempts, s, e) && a.Process? && a.id in s.held
    ensures Bounded(maxAttempts, Apply(maxAttempts, s, a), e)
  {
    var s' := Apply(maxAttempts, s, a);
    ProcessEffect(maxAttempts, s, a);
    CallsOnAppend(s.calls, CallOf(s, a.id, a.outcome), e);
    var mine := s.log[a.id].envelope.eventId == e && !s.log[a.id].envelope.deadLettered;
    if mine {
      assert Live(s, a.id, e);
    }
    forall i: nat | Live(s', i, e)
      ensures i < |s.log| ==> Live(s, i, e) && !mine
      ensures i >= |s.log| ==> i == |s.log| && mine
    {
      if i < |s.log| {
        assert i != a.id && Live(s, i, e);
      }
    }
  }

  lemma ApplyBounded(maxAttempts: int, s: System, a: Action, e: string)
    requires WellFormed(s)
    requires StartedAtZero(s, e) ==> Bounded(maxAttempts, s, e)
    requires StartedAtZero(Apply(maxAttempts, s, a), e)
    ensures Bounded(maxAttempts, Apply(maxAttempts, s, a), e)
  {
    var s' := Apply(maxAttempts, s, a);
    if e !in s.published {
      UnpublishedIsUnknown(s, e);
      forall i: nat | Live(s', i, e) ensures i == |s.log| {
        assert !HasEvent(s, i, e);
      }
    } else if a.Process? && a.id in s.held {
      ProcessBounded(maxAttempts, s, a, e);
    } else {
      forall i: nat | Live(s', i, e) ensures Live(s, i, e) && s'.log[i].envelope == s.log[i].envelope {
      }
    }
  }

  /** In every run, faults included, an event first published with zero attempts is given to the handler
      at most max(1, maxAttempts) times before it reaches a dead-letter stream. */
  lemma {:induction false} HandlerCallsBounded(maxAttempts: int, actions: seq<Action>, e: string)
    requires StartedAtZero(Run(maxAttempts, actions), e)
    ensures CallsOn(Run(maxAttempts, actions).calls, e) <= Limit(maxAttempts)
    ensures Bounded(maxAttempts, Run(maxAttempts, actions), e)
  {
    if actions != [] {
      var before := actions[..|actions| - 1];
      RunLosesNothing(maxAttempts, before);
      if StartedAtZero(Run(maxAttempts, before), e) {
        HandlerCallsBounded(maxAttempts, before, e);
      }
      ApplyBounded(maxAttempts, Run(maxAttempts, before), actions[|actions| - 1], e);
    }
  }

  // ---------------------------------------------------------------- runs without faults

  predicate FaultFree(a: Action) {
    match a
    case Process(_, outcome, stop) => stop == Completes && !outcome.AckRaises?
    case Lose(_) => false
    case _ => true
  }

  predicate AllFaultFree(actions: seq<Action>) {
    forall a :: a in actions ==> FaultFree(a)
  }

  /** Copy i is the only carrier of e, and it is in a dead-letter stream if any copy is. */
  ghost predicate OnlyCarrier(s: System, i: nat, e: string) {
    && HasEvent(s, i, e) && Carries(s, i)
    && (forall j: nat :: HasEvent(s, j, e) && Carries(s, j) ==> j == i)
    && (forall j: nat :: HasEvent(s, j, e) && s.log[j].envelope.deadLettered ==> s.log[i].envelope.deadLettered)
  }

  /** Where copy i is tells how many handler calls failed. */
  ghost predicate CountsFailures(maxAttempts: int, s: System, i: nat, e: string)
    requires i < |s.log|
  {
    StartedAtZero(s, e) ==>
      if s.log[i].envelope.deadLettered then FailuresOn(s.calls, e) == Limit(maxAttempts)
      else FailuresOn(s.calls, e) == AttemptCount(s.log[i].envelope) < Limit(maxAttempts)
  }

  ghost predicate SoleCarrier(maxAttempts: int, s: System, i: nat, e: string) {
    OnlyCarrier(s, i, e) && CountsFailures(maxAttempts, s, i, e)
  }

  ghost predicate ExactlyOne(maxAttempts: int, s: System) {
    && (forall e :: e in s.published ==> exists i: nat :: SoleCarrier(maxAttempts, s, i, e))
    && (forall i :: 0 <= i < |s.log| && s.log[i].status == Pending ==> i in s.held)
  }

  /** Which copies carry their event after a fault-free process step. */
  lemma ProcessCarriers(maxAttempts: int, s: System, a: Action)
    requires WellFormed(s) && a.Process? && FaultFree(a) && a.id in s.held
    ensures a.id < |s.log| && Carries(s, a.id)
    ensures var s' := Apply(maxAttempts, s, a);
      && |s'.log| == |s.log| + (if a.outcome.Fails? then 1 else 0)
      && (forall i: nat :: i < |s.log| && i != a.id ==> (Carries(s', i) <==> Carries(s, i)))
      && (Carries(s', a.id) <==> a.outcome.Succeeds?)
      && s'.log[a.id].status == Acked
  {
    var s' := Apply(maxAttempts, s, a);
    var c := CallOf(s, a.id, a.outcome);
    assert s'.calls[|s.calls|] == c;
    forall k | k in s'.calls ensures k == c || (k in s.calls && k.id != a.id) {
      if k in s.calls {
        var n :| 0 <= n < |s.calls| && s.calls[n] == k;
        assert CallOnRecord(s, s.calls[n]);
      }
    }
    forall i: nat | i < |s.log| && i != a.id ensures Carries(s', i) <==> Carries(s, i) {
      assert forall k :: k in s.calls ==> k in s'.calls;
    }
  }

  /** Where the carrier of an event is after a fault-free process step. */
  function NextCarrier(s: System, a: Action, i: nat): nat
    requires a.Process?
  {
    if a.id == i && a.outcome.Fails? then |s.log| else i
  }

  lemma ProcessOnlyCarrier(maxAttempts: int, s: System, a: Action, e: string, i: nat)
    requires WellFormed(s) && OnlyCarrier(s, i, e)
    requires a.Process? && FaultFree(a) && a.id in s.held
    ensures HasEvent(s, a.id, e) ==> a.id == i
    ensures OnlyCarrier(Apply(maxAttempts, s, a), NextCarrier(s, a, i), e)
  {
    var s', j := Apply(maxAttempts, s, a), NextCarrier(s, a, i);
    ProcessEffect(maxAttempts, s, a);
    ProcessCarriers(maxAttempts, s, a);
    assert HasEvent(s, a.id, e) ==> a.id == i;
    forall k: nat | HasEvent(s', k, e)
      ensures Carries(s', k) ==> k == j
      ensures s'.log[k].envelope.deadLettered ==> s'.log[j].envelope.deadLettered
    {
      if k < |s.log| {
        assert HasEvent(s, k, e);
      } else {
        assert HasEvent(s, a.id, e);
      }
    }
  }

  lemma ProcessCountsFailures(maxAttempts: int, s: System, a: Action, e: string, i: nat)
    requires WellFormed(s) && OnlyCarrier(s, i, e) && CountsFailures(maxAttempts, s, i, e)
    requires a.Process? && FaultFree(a) && a.id in s.held && (HasEvent(s, a.id, e) ==> a.id == i)
    ensures var s', j := Apply(maxAttempts, s, a), NextCarrier(s, a, i);
      j < |s'.log| && CountsFailures(maxAttempts, s', j, e)
  {
    ProcessEffect(maxAttempts, s, a);
    CallsOnAppend(s.calls, CallOf(s, a.id, a.outcome), e);
    if a.id != i {
      assert Apply(maxAttempts, s, a).log[i].envelope == s.log[i].envelope;
    }
  }

  lemma ProcessSoleCarrier(maxAttempts: int, s: System, a: Action, e: string, i: nat)
    requires WellFormed(s) && SoleCarrier(maxAttempts, s, i, e)
    requires a.Process? && FaultFree(a) && a.id in s.held
    ensures SoleCarrier(maxAttempts, Apply(maxAttempts, s, a), NextCarrier(s, a, i), e)
  {
    ProcessOnlyCarrier(maxAttempts, s, a, e, i);
    ProcessCountsFailures(maxAttempts, s, a, e, i);
  }

  lemma OtherSoleCarrier(maxAttempts: int, s: System, a: Action, e: string, i: nat)
    requires WellFormed(s) && SoleCarrier(maxAttempts, s, i, e) && e in s.published
    requires FaultFree(a) && !(a.Process? && a.id in s.held)
    ensures SoleCarrier(maxAttempts, Apply(maxAttempts, s, a), i, e)
  {
    var s' := Apply(maxAttempts, s, a);
    assert s'.calls == s.calls;
    forall k: nat | HasEvent(s', k, e)
      ensures HasEvent(s, k, e) && s'.log[k].envelope == s.log[k].envelope && (Carries(s', k) <==> Carries(s, k))
    {
    }
  }

  lemma NewSoleCarrier(maxAttempts: int, s: System, a: Action, e: string)
    requires WellFormed(s) && e !in s.published && e in Apply(maxAttempts, s, a).published
    ensures SoleCarrier(maxAttempts, Apply(maxAttempts, s, a), |s.log|, e)
  {
    var s' := Apply(maxAttempts, s, a);
    UnpublishedIsUnknown(s, e);
    forall k: nat | HasEvent(s', k, e) ensures k == |s.log| {
      assert !HasEvent(s, k, e);
    }
  }

  lemma ApplyExactlyOne(maxAttempts: int, s: System, a: Action)
    requires WellFormed(s) && ExactlyOne(maxAttempts, s) && FaultFree(a)
    ensures ExactlyOne(maxAttempts, Apply(maxAttempts, s, a))
  {
    var s' := Apply(maxAttempts, s, a);
    forall e | e in s'.published ensures exists i: nat :: SoleCarrier(maxAttempts, s', i, e) {
      if e in s.published {
        var i: nat :| SoleCarrier(maxAttempts, s, i, e);
        if a.Process? && a.id in s.held {
          ProcessSoleCarrier(maxAttempts, s, a, e, i);
        } else {
          OtherSoleCarrier(maxAttempts, s, a, e, i);
        }
      } else {
        NewSoleCarrier(maxAttempts, s, a, e);
      }
    }
    PendingStaysHeld(maxAttempts, s, a);
  }

  lemma PendingStaysHeld(maxAttempts: int, s: System, a: Action)
    requires WellFormed(s) && FaultFree(a)
    requires forall i :: 0 <= i < |s.log| && s.log[i].status == Pending ==> i in s.held
    ensures var s' := Apply(maxAttempts, s, a);
      forall i :: 0 <= i < |s'.log| && s'.log[i].status == Pending ==> i in s'.held
  {
    if a.Process? && a.id in s.held {
      ProcessEffect(maxAttempts, s, a);
      ProcessCarriers(maxAttempts, s, a);
    }
  }

  /** Without faults every published event has exactly one carrier: an unacknowledged copy, a copy the
      handler accepted, or a dead-lettered copy. */
  lemma {:induction false} ExactlyOneCarrier(maxAttempts: int, actions: seq<Action>)
    requires AllFaultFree(actions)
    ensures ExactlyOne(maxAttempts, Run(maxAttempts, actions))
  {
    if actions != [] {
      var before := actions[..|actions| - 1];
      ExactlyOneCarrier(maxAttempts, before);
      RunLosesNothing(maxAttempts, before);
      ApplyExactlyOne(maxAttempts, Run(maxAttempts, before), actions[|actions| - 1]);
    }
  }

  /** Without faults, an event published with zero attempts is dead-lettered exactly when
      max(1, maxAttempts) handler calls on it failed. */
  lemma DeadLetteredIffAllFail(maxAttempts: int, actions: seq<Action>, e: string)
    requires AllFaultFree(actions) && StartedAtZero(Run(maxAttempts, actions), e)
    ensures var s := Run(maxAttempts, actions);
      (exists i: nat :: HasEvent(s, i, e) && s.log[i].envelope.deadLettered)
      <==> FailuresOn(s.calls, e) == Limit(maxAttempts)
  {
    ExactlyOneCarrier(maxAttempts, actions);
    var s := Run(maxAttempts, actions);
    var i: nat :| SoleCarrier(maxAttempts, s, i, e);
  }

  ghost predicate UniqueCarriers(s: System) {
    forall e, i: nat, j: nat :: HasEvent(s, i, e) && HasEvent(s, j, e) && Carries(s, i) && Carries(s, j) ==> i == j
  }

  /** A step duplicates its event exactly when it writes the new copy although the old one still
      carries it: the worker dies before the acknowledgement, or the handler had succeeded. */
  lemma ProcessDuplicatesExactlyWhen(maxAttempts: int, s: System, a: Action)
    requires WellFormed(s) && UniqueCarriers(s) && a.Process? && a.id in s.held
    ensures UniqueCarriers(Apply(maxAttempts, s, a))
      <==> a.outcome.Succeeds? || a.stop == BeforeHandler || a.stop == BeforeWrite
           || (a.outcome.Fails? && a.stop == Completes)
  {
    var s' := Apply(maxAttempts, s, a);
    ProcessEffect(maxAttempts, s, a);
    if a.stop != BeforeHandler {
      assert s'.calls[|s.calls|] == CallOf(s, a.id, a.outcome);
    }
    forall k | k in s'.calls
      ensures k in s.calls || (a.stop != BeforeHandler && k == CallOf(s, a.id, a.outcome))
    {
    }
    forall k | k in s.calls ensures k in s'.calls && k.id != a.id {
      var n :| 0 <= n < |s.calls| && s.calls[n] == k;
      assert CallOnRecord(s, s.calls[n]);
    }
    forall i: nat | i < |s.log| && i != a.id ensures Carries(s', i) <==> Carries(s, i) {
    }
    var e := s.log[a.id].envelope.eventId;
    assert HasEvent(s, a.id, e) && HasEvent(s', a.id, e);
    if |s'.log| > |s.log| {
      assert HasEvent(s', |s.log|, e);
      assert Carries(s', |s.log|);
      assert Carries(s', a.id) <==> a.stop == BeforeAck || a.outcome.AckRaises?;
    }
    forall x, i: nat | HasEvent(s', i, x) && Carries(s', i)
      ensures i < |s.log| ==> HasEvent(s, i, x) && Carries(s, i)
      ensures i >= |s.log| ==> x == e && i == |s.log|
    {
      assert i < |s.log| ==> HasEvent(s, i, x);
    }
  }

  // ---------------------------------------------------------------- draining

  /** How many more handler calls one live copy can cause. */
  function Remaining(maxAttempts: int, env: Envelope): int {
    Max(1, maxAttempts - AttemptCount(env))
  }

  function EntryWeight(maxAttempts: int, e: Entry, held: bool): nat {
    if e.envelope.deadLettered || !(e.status == Fresh || held) then 0 else Remaining(maxAttempts, e.envelope)
  }

  /** The sum over the live copies of their remaining attempts. */
  function Work(maxAttempts: int, log: Log, held: set<nat>): nat {
    if log == [] then 0
    else
      var i := |log| - 1;
      Work(maxAttempts, log[..i], held) + EntryWeight(maxAttempts, log[i], i in held)
  }

  /** Two logs of the same length whose weights differ at most at position p. */
  lemma {:induction false} WorkUpdate(maxAttempts: int, a: Log, heldA: set<nat>, b: Log, heldB: set<nat>, p: nat)
    requires |a| == |b|
    requires forall i :: 0 <= i < |a| && i != p ==>
      EntryWeight(maxAttempts, b[i], i in heldB) <= EntryWeight(maxAttempts, a[i], i in heldA)
    ensures p >= |a| ==> Work(maxAttempts, b, heldB) <= Work(maxAttempts, a, heldA)
    ensures p < |a| ==> Work(maxAttempts, b, heldB) - EntryWeight(maxAttempts, b[p], p in heldB)
                          <= Work(maxAttempts, a, heldA) - EntryWeight(maxAttempts, a[p], p in heldA)
  {
    if a != [] {
      WorkUpdate(maxAttempts, a[..|a| - 1], heldA, b[..|b| - 1], heldB, p);
    }
  }

  predicate LiveProcess(s: System, a: Action) {
    a.Process? && a.id in s.held && a.id < |s.log| && !s.log[a.id].envelope.deadLettered
  }

  /** A process step writes at most one copy, and pays for it with the copy it consumes. */
  lemma ProcessWork(maxAttempts: int, s: System, a: Action)
    requires WellFormed(s) && a.Process? && a.id in s.held
    ensures a.id < |s.log|
    ensures var s' := Apply(maxAttempts, s, a);
      Work(maxAttempts, s'.log, s'.held) + (if LiveProcess(s, a) then 1 else 0) <= Work(maxAttempts, s.log, s.held)
  {
    var s' := Apply(maxAttempts, s, a);
    var base := s'.log[..|s.log|];
    ProcessEffect(maxAttempts, s, a);
    ProcessedWeight(maxAttempts, s, a);
    WorkUpdate(maxAttempts, s.log, s.held, base, s'.held, a.id);
    if |s'.log| > |s.log| {
      assert s'.log[..|s'.log| - 1] == base;
      SuccessorWeight(maxAttempts, s.log[a.id], a.outcome.error);
    } else {
      assert s'.log == base;
    }
  }

  lemma ProcessedWeight(maxAttempts: int, s: System, a: Action)
    requires WellFormed(s) && a.Process? && a.id in s.held
    ensures a.id < |s.log|
    ensures var s' := Apply(maxAttempts, s, a);
      && |s'.log| >= |s.log| && EntryWeight(maxAttempts, s'.log[a.id], a.id in s'.held) == 0
      && (a.outcome.Fails? && a.stop == Completes ==> |s'.log| == |s.log| + 1)
  {
  }

  /** A failed attempt uses up exactly one of the remaining ones; what is in a dead-letter stream stays there. */
  lemma SuccessorWeight(maxAttempts: int, e: Entry, error: string)
    ensures EntryWeight(maxAttempts, Successor(e, error, maxAttempts), false)
         == if e.envelope.deadLettered then 0 else Remaining(maxAttempts, e.envelope) - 1
  {
  }

  lemma ApplyWork(maxAttempts: int, s: System, a: Action)
    requires WellFormed(s) && !a.Publish?
    ensures var s' := Apply(maxAttempts, s, a);
      Work(maxAttempts, s'.log, s'.held) + (if LiveProcess(s, a) then 1 else 0) <= Work(maxAttempts, s.log, s.held)
  {
    if a.Process? && a.id in s.held {
      ProcessWork(maxAttempts, s, a);
    } else {
      var s' := Apply(maxAttempts, s, a);
      WorkUpdate(maxAttempts, s.log, s.held, s'.log, s'.held, |s.log|);
    }
  }

  function After(maxAttempts: int, s: System, actions: seq<Action>): System
    decreases |actions|
  {
    if actions == [] then s else After(maxAttempts, Apply(maxAttempts, s, actions[0]), actions[1..])
  }

  /** The handler calls that a schedule makes on live copies. */
  function LiveSteps(maxAttempts: int, s: System, actions: seq<Action>): nat
    decreases |actions|
  {
    if actions == [] then 0
    else (if LiveProcess(s, actions[0]) then 1 else 0)
         + LiveSteps(maxAttempts, Apply(maxAttempts, s, actions[0]), actions[1..])
  }

  predicate PublishFree(actions: seq<Action>) {
    forall i :: 0 <= i < |actions| ==> !actions[i].Publish?
  }

  /** Every schedule of reads, process steps and crashes -- whatever it does with the dead-letter streams -- makes at
      most Work process steps on live copies. */
  lemma {:induction false} ScheduleDrains(maxAttempts: int, s: System, actions: seq<Action>)
    requires WellFormed(s) && PublishFree(actions)
    ensures var t := After(maxAttempts, s, actions);
      LiveSteps(maxAttempts, s, actions) + Work(maxAttempts, t.log, t.held) <= Work(maxAttempts, s.log, s.held)
    decreases |actions|
  {
    if actions != [] {
      ApplyWellFormed(maxAttempts, s, actions[0]);
      ApplyWork(maxAttempts, s, actions[0]);
      ScheduleDrains(maxAttempts, Apply(maxAttempts, s, actions[0]), actions[1..]);
    }
  }

  /** Work is exhausted exactly when no live copy is left. */
  lemma {:induction false} DrainedIffNoWork(maxAttempts: int, s: System, log: Log)
    requires log <= s.log
    ensures Work(maxAttempts, log, s.held) == 0
      <==> forall i: nat :: i < |log| ==> !Awaiting(s, i) || s.log[i].envelope.deadLettered
  {
    if log != [] {
      DrainedIffNoWork(maxAttempts, s, log[..|log| - 1]);
      var i: nat := |log| - 1;
      assert log[i] == s.log[i];
      assert EntryWeight(maxAttempts, log[i], i in s.held) == 0
        <==> !Awaiting(s, i) || s.log[i].envelope.deadLettered;
    }
  }

  /** While a live copy is left, some read or process step on it is possible. */
  lemma LiveCopyCanMove(maxAttempts: int, s: System, i: nat, e: string)
    requires WellFormed(s) && Live(s, i, e)
    ensures LiveProcess(s, Process(i, Succeeds, Completes))
         || LiveProcess(Apply(maxAttempts, s, Deliver({i})), Process(i, Succeeds, Completes))
  {
  }

  /** A schedule that makes as many process steps on live copies as there is work leaves no live copy. */
  lemma FullScheduleDrains(maxAttempts: int, s: System, actions: seq<Action>)
    requires WellFormed(s) && PublishFree(actions)
    requires LiveSteps(maxAttempts, s, actions) == Work(maxAttempts, s.log, s.held)
    ensures var t := After(maxAttempts, s, actions);
      forall i: nat, e :: !Live(t, i, e)
  {
    var t := After(maxAttempts, s, actions);
    ScheduleDrains(maxAttempts, s, actions);
    assert t.log[..|t.log|] == t.log;
    DrainedIffNoWork(maxAttempts, t, t.log);
  }

  /** Reading leaves the work as it is. */
  lemma DeliverWork(maxAttempts: int, s: System, ids: set<nat>)
    ensures var t := Apply(maxAttempts, s, Deliver(ids));
      Work(maxAttempts, t.log, t.held) == Work(maxAttempts, s.log, s.held)
  {
    var t := Apply(maxAttempts, s, Deliver(ids));
    WorkUpdate(maxAttempts, s.log, s.held, t.log, t.held, |s.log|);
    WorkUpdate(maxAttempts, t.log, t.held, s.log, s.held, |s.log|);
  }

  /** A failing process step on a live copy takes exactly one off the work. */
  lemma FailureWork(maxAttempts: int, s: System, i: nat, error: string)
    requires WellFormed(s) && LiveProcess(s, Process(i, Fails(error), Completes))
    ensures var t := Apply(maxAttempts, s, Process(i, Fails(error), Completes));
      Work(maxAttempts, t.log, t.held) + 1 == Work(maxAttempts, s.log, s.held)
  {
    var t := Apply(maxAttempts, s, Process(i, Fails(error), Completes));
    var base := t.log[..|s.log|];
    ProcessEffect(maxAttempts, s, Process(i, Fails(error), Completes));
    ProcessedWeight(maxAttempts, s, Process(i, Fails(error), Completes));
    WorkUpdate(maxAttempts, s.log, s.held, base, t.held, i);
    WorkUpdate(maxAttempts, base, t.held, s.log, s.held, i);
    SuccessorWeight(maxAttempts, s.log[i], error);
    assert t.log[..|t.log| - 1] == base;
  }

  /** From every reachable state some schedule makes as many steps on live copies as there is work: the bound of
      ScheduleDrains is exact, and by FullScheduleDrains the bus is then drained. */
  lemma {:induction false} FullScheduleExists(maxAttempts: int, s: System) returns (actions: seq<Action>)
    requires WellFormed(s)
    ensures PublishFree(actions) && LiveSteps(maxAttempts, s, actions) == Work(maxAttempts, s.log, s.held)
    decreases Work(maxAttempts, s.log, s.held)
  {
    actions := [];
    if Work(maxAttempts, s.log, s.held) > 0 {
      var i := FindLive(maxAttempts, s);
      var read, fail := Deliver({i}), Process(i, Fails(""), Completes);
      var t := Apply(maxAttempts, s, read);
      ReadAndFail(maxAttempts, s, i);
      var rest := FullScheduleExists(maxAttempts, Apply(maxAttempts, t, fail));
      actions := [read, fail] + rest;
      LiveStepsOfTwo(maxAttempts, s, read, fail, rest);
    }
  }

  lemma FindLive(maxAttempts: int, s: System) returns (i: nat)
    requires Work(maxAttempts, s.log, s.held) > 0
    ensures i < |s.log| && Awaiting(s, i) && !s.log[i].envelope.deadLettered
  {
    DrainedIffNoWork(maxAttempts, s, s.log);
    i :| i < |s.log| && Awaiting(s, i) && !s.log[i].envelope.deadLettered;
  }

  /** Delivering a live copy, if it is not held already, and failing on it takes one off the work. */
  lemma ReadAndFail(maxAttempts: int, s: System, i: nat)
    requires WellFormed(s) && i < |s.log| && Awaiting(s, i) && !s.log[i].envelope.deadLettered
    ensures var t := Apply(maxAttempts, s, Deliver({i}));
      var u := Apply(maxAttempts, t, Process(i, Fails(""), Completes));
      && LiveProcess(t, Process(i, Fails(""), Completes)) && WellFormed(u)
      && Work(maxAttempts, u.log, u.held) + 1 == Work(maxAttempts, s.log, s.held)
  {
    var t := Apply(maxAttempts, s, Deliver({i}));
    ApplyWellFormed(maxAttempts, s, Deliver({i}));
    DeliverWork(maxAttempts, s, {i});
    FailureWork(maxAttempts, t, i, "");
    ApplyWellFormed(maxAttempts, t, Process(i, Fails(""), Completes));
  }

  lemma LiveStepsOfTwo(maxAttempts: int, s: System, a: Action, b: Action, rest: seq<Action>)
    ensures var t := Apply(maxAttempts, s, a);
      LiveSteps(maxAttempts, s, [a, b] + rest)
        == (if LiveProcess(s, a) then 1 else 0) + (if LiveProcess(t, b) then 1 else 0)
           + LiveSteps(maxAttempts, Apply(maxAttempts, t, b), rest)
  {
    assert ([a, b] + rest)[1..] == [b] + rest && ([b] + rest)[1..] == rest;
  }

  // ---------------------------------------------------------------- the bus itself

  datatype StreamMessage = StreamMessage(stream: string, messageId: nat, envelope: Envelope)

  predicate FreshIn(log: Log, name: string, i: int) {
    0 <= i < |log| && log[i].stream == name && log[i].status == Fresh
  }

  /** The Redis commands the bus relies on, for one consumer group. */
  class RedisStreams {
    var log: Log

    constructor ()
      ensures log == []
    {
      log := [];
    }

    method XAdd(name: string, envelope: Envelope) returns (id: nat)
      modifies this
      ensures log == old(log) + [Entry(name, envelope, Fresh)] && id == |old(log)|
    {
      id := |log|;
      log := log + [Entry(name, envelope, Fresh)];
    }

    method XAck(name: string, id: nat) returns (n: nat)
      modifies this
      ensures log == if id < |old(log)| && old(log)[id].stream == name then MarkAcked(old(log), id) else old(log)
      ensures n == 1 <==> id < |old(log)| && old(log)[id].stream == name && old(log)[id].status == Pending
      ensures n == 1 ==> log == old(log)[id := old(log)[id].(status := Acked)]
      ensures n != 1 ==> log == old(log) && n == 0
    {
      n := 0;
      if id < |log| && log[id].stream == name && log[id].status == Pending {
        log := MarkAcked(log, id);
        n := 1;
      }
    }

    /** The oldest undelivered entries of one stream, at most `count` of them. */
    method XReadGroup(name: string, count: nat) returns (ids: seq<nat>)
      modifies this
      ensures |ids| <= count
      ensures forall k :: 0 <= k < |ids| ==> FreshIn(old(log), name, ids[k])
      ensures forall k, l :: 0 <= k < l < |ids| ==> ids[k] < ids[l]
      ensures forall i, k :: FreshIn(old(log), name, i) && i !in ids && 0 <= k < |ids| ==> ids[k] < i
      ensures |ids| < count ==> forall i :: FreshIn(old(log), name, i) ==> i in ids
      ensures log == Delivered(old(log), set i | i in ids)
    {
      ids := [];
      var pos := 0;
      while pos < |log| && |ids| < count
        invariant 0 <= pos <= |log| && |ids| <= count && |log| == |old(log)|
        invariant forall k :: 0 <= k < |ids| ==> ids[k] < pos && FreshIn(old(log), name, ids[k])
        invariant forall k, l :: 0 <= k < l < |ids| ==> ids[k] < ids[l]
        invariant forall i :: i < pos && FreshIn(old(log), name, i) ==> i in ids
        invariant forall i :: pos <= i < |log| ==> log[i] == old(log)[i]
        invariant forall i :: 0 <= i < |log| ==>
          log[i] == if i in ids then old(log)[i].(status := Pending) else old(log)[i]
      {
        if log[pos].stream == name && log[pos].status == Fresh {
          log := log[pos := log[pos].(status := Pending)];
          ids := ids + [pos];
        }
        pos := pos + 1;
      }
    }
  }

  /** The copy is the message with one more attempt and, if there is one, the error; it goes where the message was. */
  predicate RetryOf(message: StreamMessage, error: Option<string>, copy: Entry) {
    var env := message.envelope;
    && copy.stream == message.stream && copy.status == Fresh
    && copy.envelope.eventId == env.eventId && copy.envelope.body == env.body
    && copy.envelope.deadLettered == env.deadLettered
    && copy.envelope.attempts == Some(1 + if env.attempts.Some? then env.attempts.value else 0)
    && copy.envelope.lastError == if error.Some? then error else env.lastError
  }

  /** The copy is the message with the error and the dead-letter flag; it goes to the stream's ":dlq" companion. */
  predicate BurialOf(message: StreamMessage, error: string, copy: Entry) {
    var env := message.envelope;
    && copy.stream == message.stream + ":dlq" && copy.status == Fresh
    && copy.envelope.eventId == env.eventId && copy.envelope.body == env.body
    && copy.envelope.deadLettered && copy.envelope.attempts == env.attempts
    && copy.envelope.lastError == Some(error)
  }

  lemma OneMoreId(messages: seq<StreamMessage>, m: StreamMessage)
    ensures (set x | x in messages + [m] :: x.messageId) == (set x | x in messages :: x.messageId) + {m.messageId}
  {
  }

  lemma MoreIds(a: seq<StreamMessage>, b: seq<StreamMessage>)
    ensures (set x | x in a + b :: x.messageId) == (set x | x in a :: x.messageId) + (set x | x in b :: x.messageId)
  {
  }

  class StreamBus {
    const redis: RedisStreams

    constructor (redis: RedisStreams)
      ensures this.redis == redis
    {
      this.redis := redis;
    }

    /** The message a worker holds for entry m.messageId. */
    ghost predicate Describes(m: StreamMessage)
      reads redis
    {
      && m.messageId < |redis.log|
      && redis.log[m.messageId].stream == m.stream && redis.log[m.messageId].envelope == m.envelope
    }

    method Publish(stream: string, envelope: Envelope) returns (id: nat)
      modifies redis
      ensures redis.log == old(redis.log) + [Entry(stream, envelope, Fresh)] && id == |old(redis.log)|
    {
      id := redis.XAdd(stream, envelope);
    }

    /** Reads several streams; every message is delivered now, was fresh before and describes its entry. */
    method Read(names: seq<string>, count: nat) returns (messages: seq<StreamMessage>)
      modifies redis
      ensures redis.log == Delivered(old(redis.log), set m | m in messages :: m.messageId)
      ensures forall m :: m in messages ==> Describes(m) && old(redis.log)[m.messageId].status == Fresh
    {
      messages := [];
      for n := 0 to |names|
        invariant |redis.log| == |old(redis.log)|
        invariant forall m :: m in messages ==> Describes(m) && old(redis.log)[m.messageId].status == Fresh
        invariant redis.log == Delivered(old(redis.log), set m | m in messages :: m.messageId)
      {
        label batch:
        var ids := redis.XReadGroup(names[n], count);
        var batch := Messages(names[n], ids);
        MoreIds(messages, batch);
        messages := messages + batch;
      }
    }

    /** The inner loop of a read: one message for every entry delivered from one stream. */
    method Messages(name: string, ids: seq<nat>) returns (messages: seq<StreamMessage>)
      requires forall i :: i in ids ==> i < |redis.log| && redis.log[i].stream == name
      ensures forall m :: m in messages ==> Describes(m) && m.messageId in ids
      ensures (set m | m in messages :: m.messageId) == set i | i in ids
    {
      messages := [];
      for k := 0 to |ids|
        invariant forall m :: m in messages ==> Describes(m) && m.messageId in ids
        invariant (set m | m in messages :: m.messageId) == set i | i in ids[..k]
      {
        assert ids[k] in ids;
        var m := StreamMessage(name, ids[k], redis.log[ids[k]].envelope);
        OneMoreId(messages, m);
        TakeOneMore(ids, k);
        messages := messages + [m];
      }
      assert ids[..|ids|] == ids;
    }

    method Ack(stream: string, messageId: nat) returns (n: nat)
      modifies redis
      ensures redis.log == if messageId < |old(redis.log)| && old(redis.log)[messageId].stream == stream
                           then MarkAcked(old(redis.log), messageId) else old(redis.log)
    {
      n := redis.XAck(stream, messageId);
    }

    /** The new copy is written first; `crash` stops the worker before the acknowledgement. */
    method Retry(message: StreamMessage, error: Option<string>, crash: bool) returns (id: nat)
      requires Describes(message)
      modifies redis
      ensures var written := old(redis.log) + [Entry(message.stream, WithRetry(message.envelope, error), Fresh)];
        redis.log == if crash then written else MarkAcked(written, message.messageId)
      ensures id == |old(redis.log)| < |redis.log| && RetryOf(message, error, redis.log[id])
      ensures !crash ==> redis.log[message.messageId].status != Pending
    {
      id := redis.XAdd(message.stream, WithRetry(message.envelope, error));
      if !crash {
        var _ := Ack(message.stream, message.messageId);
      }
    }

    method DeadLetter(message: StreamMessage, error: string, crash: bool) returns (id: nat)
      requires Describes(message)
      modifies redis
      ensures var written := old(redis.log)
                             + [Entry(DeadLetterName(message.stream), Buried(message.envelope, error), Fresh)];
        redis.log == if crash then written else MarkAcked(written, message.messageId)
      ensures id == |old(redis.log)| < |redis.log| && BurialOf(message, error, redis.log[id])
      ensures !crash ==> redis.log[message.messageId].status != Pending
    {
      id := redis.XAdd(DeadLetterName(message.stream), Buried(message.envelope, error));
      if !crash {
        var _ := Ack(message.stream, message.messageId);
      }
    }

    /** The handler's result is `outcome`; `stop` says where the worker dies, if it does. */
    method ProcessWithRetry(message: StreamMessage, outcome: Outcome, stop: Stop, maxAttempts: int)
      requires Describes(message)
      modifies redis
      ensures redis.log == Processed(old(redis.log), message.messageId, maxAttempts, outcome, stop)
      ensures outcome.Succeeds? || stop == BeforeHandler || stop == BeforeWrite ==> |redis.log| == |old(redis.log)|
      ensures !outcome.Succeeds? && stop != BeforeHandler && stop != BeforeWrite ==>
        && |redis.log| == |old(redis.log)| + 1
        && var copy := redis.log[|old(redis.log)|];
           var attempts := if message.envelope.attempts.Some? then message.envelope.attempts.value else 0;
           if attempts + 1 >= maxAttempts then BurialOf(message, outcome.error, copy)
           else RetryOf(message, Some(outcome.error), copy)
      ensures stop == Completes ==> redis.log[message.messageId].status != Pending
    {
      var attempts := AttemptCount(message.envelope);
      if stop == BeforeHandler {
        return;
      }
      match outcome
      case Succeeds =>
        if stop == Completes {
          var _ := Ack(message.stream, message.messageId);
        }
      case _ =>
        if stop == BeforeWrite {
          return;
        }
        if attempts + 1 >= maxAttempts {
          var _ := DeadLetter(message, outcome.error, stop == BeforeAck);
        } else {
          var _ := Retry(message, Some(outcome.error), stop == BeforeAck);
        }
    }
  }
}

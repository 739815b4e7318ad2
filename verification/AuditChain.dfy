/** The hash-chained audit log (cryptoswarms/immutable_audit.py).

    The hash is a function parameter; what is needed of it is a precondition where it is needed. */
module AuditChain {
  import opened Common

  const GENESIS := "GENESIS"

  /** The hashed part of a record, with the missing fields that `record.get` allows. */
  datatype Body = Body(
    ts: Option<string>, agent: Option<string>, action: Option<string>, runId: Option<string>, metadata: Option<string>)

  datatype Payload = Payload(body: Body, prevHash: Option<string>)

  /** `extra` are keys of the JSON object that no code looks at. */
  datatype Record = Record(payload: Payload, hash: Option<string>, extra: map<string, string>)

  datatype Line = Blank | Garbage | NotObject | Json(record: Record)

  type Hash = Payload -> string

  /** `Raises`: the line is JSON but not an object, so that asking it for a key is an exception. */
  datatype Verdict =
    | Accepted(lastHash: string)
    | InvalidJson(line: nat)
    | Raises(line: nat)
    | PrevMismatch(line: nat)
    | HashMismatch(line: nat)

  /** The verdict on the lines from position i on, the chain having reached prevHash. */
  function VerifyFrom(h: Hash, lines: seq<Line>, i: nat, prevHash: string): Verdict
    requires i <= |lines|
    decreases |lines| - i
  {
    if i == |lines| then Accepted(prevHash)
    else match lines[i]
      case Blank => VerifyFrom(h, lines, i + 1, prevHash)
      case Garbage => InvalidJson(i + 1)
      case NotObject => Raises(i + 1)
      case Json(r) =>
        if r.payload.prevHash != Some(prevHash) then PrevMismatch(i + 1)
        else if r.hash != Some(h(r.payload)) then HashMismatch(i + 1)
        else VerifyFrom(h, lines, i + 1, r.hash.value)
  }

  function Verify(h: Hash, lines: seq<Line>): Verdict {
    VerifyFrom(h, lines, 0, GENESIS)
  }

  /** `_last_hash`: None where reading a line that is no JSON object raises. */
  function LastHash(lines: seq<Line>): Option<string> {
    if lines == [] then Some(GENESIS)
    else
      var before := LastHash(lines[..|lines| - 1]);
      match lines[|lines| - 1]
      case Blank => before
      case Garbage => None
      case NotObject => None
      case Json(r) =>
        if before.None? then None
        else if r.hash.Some? && r.hash.value != "" then r.hash
        else before
  }

  function NewRecord(h: Hash, body: Body, prevHash: string): Record {
    var p := Payload(body, Some(prevHash));
    Record(p, Some(h(p)), map[])
  }

  /** The records of the log that are hashed, in order: what the chain protects. */
  function Payloads(lines: seq<Line>): seq<Payload> {
    if lines == [] then []
    else
      var before := Payloads(lines[..|lines| - 1]);
      if lines[|lines| - 1].Json? then before + [lines[|lines| - 1].record.payload] else before
  }

  // ---------------------------------------------------------------- the chain

  /** The hash a sequence of payloads ends on. */
  function ChainEnd(h: Hash, ps: seq<Payload>): string {
    if ps == [] then GENESIS else h(ps[|ps| - 1])
  }

  ghost predicate Chained(h: Hash, ps: seq<Payload>) {
    forall i :: 0 <= i < |ps| ==> ps[i].prevHash == Some(ChainEnd(h, ps[..i]))
  }

  /** Every record carries the hash of its payload. */
  ghost predicate Sealed(h: Hash, lines: seq<Line>) {
    forall l :: l in lines ==> !l.Garbage? && !l.NotObject? && (l.Json? ==> l.record.hash == Some(h(l.record.payload)))
  }

  lemma {:induction false} PayloadsConcat(a: seq<Line>, b: seq<Line>)
    ensures Payloads(a + b) == Payloads(a) + Payloads(b)
  {
    if b == [] {
      assert a + b == a;
    } else {
      var n := |b| - 1;
      PayloadsConcat(a, b[..n]);
      assert (a + b)[..|a| + n] == a + b[..n];
    }
  }

  lemma PayloadsOneMore(lines: seq<Line>, i: nat)
    requires i < |lines|
    ensures Payloads(lines[..i + 1]) == Payloads(lines[..i]) + if lines[i].Json? then [lines[i].record.payload] else []
  {
    assert lines[..i + 1][..i] == lines[..i];
  }

  lemma ChainedOneMore(h: Hash, ps: seq<Payload>, p: Payload)
    ensures Chained(h, ps + [p]) <==> Chained(h, ps) && p.prevHash == Some(ChainEnd(h, ps))
  {
    var qs := ps + [p];
    assert forall i :: 0 <= i < |ps| ==> qs[..i] == ps[..i];
    assert qs[..|ps|] == ps;
    if Chained(h, qs) {
      assert qs[|ps|].prevHash == Some(ChainEnd(h, qs[..|ps|]));
      forall i | 0 <= i < |ps| ensures ps[i].prevHash == Some(ChainEnd(h, ps[..i])) {
        assert qs[i] == ps[i] && qs[..i] == ps[..i];
      }
    }
  }

  /** `verify_chain` accepts exactly the logs whose records are sealed and chained, and it ends on the hash of
      the last record. */
  lemma {:induction false} VerifyFromMeans(h: Hash, lines: seq<Line>, i: nat)
    requires i <= |lines| && Sealed(h, lines[..i]) && Chained(h, Payloads(lines[..i]))
    ensures var v := VerifyFrom(h, lines, i, ChainEnd(h, Payloads(lines[..i])));
      && (v.Accepted? <==> Sealed(h, lines) && Chained(h, Payloads(lines)))
      && (v.Accepted? ==> v.lastHash == ChainEnd(h, Payloads(lines)))
    decreases |lines| - i
  {
    if i == |lines| {
      assert lines[..i] == lines;
    } else {
      PayloadsOneMore(lines, i);
      assert lines[..i + 1] == lines[..i] + [lines[i]];
      assert lines == lines[..i + 1] + lines[i + 1..];
      assert lines[i] in lines;
      PayloadsConcat(lines[..i + 1], lines[i + 1..]);
      match lines[i]
      case Garbage =>
      case NotObject =>
      case Blank =>
        assert Payloads(lines[..i]) + [] == Payloads(lines[..i]);
        VerifyFromMeans(h, lines, i + 1);
      case Json(r) =>
        ChainedOneMore(h, Payloads(lines[..i]), r.payload);
        if r.payload.prevHash == Some(ChainEnd(h, Payloads(lines[..i]))) && r.hash == Some(h(r.payload)) {
          VerifyFromMeans(h, lines, i + 1);
        } else if Chained(h, Payloads(lines)) {
          ChainedPrefix(h, Payloads(lines[..i + 1]), Payloads(lines[i + 1..]));
        }
    }
  }

  lemma ChainedPrefix(h: Hash, a: seq<Payload>, b: seq<Payload>)
    requires Chained(h, a + b)
    ensures Chained(h, a)
  {
    forall i | 0 <= i < |a| ensures a[i].prevHash == Some(ChainEnd(h, a[..i])) {
      assert (a + b)[i] == a[i] && (a + b)[..i] == a[..i];
    }
  }

  lemma VerifyMeans(h: Hash, lines: seq<Line>)
    ensures Verify(h, lines).Accepted? <==> Sealed(h, lines) && Chained(h, Payloads(lines))
    ensures Verify(h, lines).Accepted? ==> Verify(h, lines).lastHash == ChainEnd(h, Payloads(lines))
    ensures Verify(h, lines).Accepted? && Payloads(lines) != [] ==> Payloads(lines)[0].prevHash == Some("GENESIS")
  {
    assert lines[..0] == [];
    VerifyFromMeans(h, lines, 0);
  }

  // ---------------------------------------------------------------- which line is rejected, and why

  /** One more line: an accepting verdict turns on that line alone, and a rejecting one stands. */
  lemma VerifyOneMore(h: Hash, lines: seq<Line>, l: Line)
    ensures var v := Verify(h, lines);
      Verify(h, lines + [l]) ==
        if !v.Accepted? then v
        else VerifyFrom(h, lines + [l], |lines|, v.lastHash)
  {
    OneMoreFrom(h, lines, l, 0, GENESIS);
  }

  lemma {:induction false} OneMoreFrom(h: Hash, lines: seq<Line>, l: Line, i: nat, prevHash: string)
    requires i <= |lines|
    ensures var v := VerifyFrom(h, lines, i, prevHash);
      VerifyFrom(h, lines + [l], i, prevHash) ==
        if !v.Accepted? then v else VerifyFrom(h, lines + [l], |lines|, v.lastHash)
    decreases |lines| - i
  {
    if i < |lines| {
      assert (lines + [l])[i] == lines[i];
      match lines[i]
      case Garbage =>
      case NotObject =>
      case Blank => OneMoreFrom(h, lines, l, i + 1, prevHash);
      case Json(r) =>
        if r.hash.Some? {
          OneMoreFrom(h, lines, l, i + 1, r.hash.value);
        }
    }
  }

  /** A rejecting verdict names the first line at fault: everything before it is accepted, ending on some hash p, and
      the line is no JSON, or no object, or does not name p as its predecessor, or does but carries another hash than
      that of its payload. */
  lemma {:induction false} FirstBadLine(h: Hash, lines: seq<Line>)
    requires !Verify(h, lines).Accepted?
    ensures var v := Verify(h, lines);
      && 1 <= v.line <= |lines| && Verify(h, lines[..v.line - 1]).Accepted?
      && var p, l := Verify(h, lines[..v.line - 1]).lastHash, lines[v.line - 1];
      && (v.InvalidJson? <==> l.Garbage?)
      && (v.Raises? <==> l.NotObject?)
      && (v.PrevMismatch? <==> l.Json? && l.record.payload.prevHash != Some(p))
      && (v.HashMismatch? <==>
            l.Json? && l.record.payload.prevHash == Some(p) && l.record.hash != Some(h(l.record.payload)))
  {
    if lines != [] {
      var n := |lines| - 1;
      LastApart(lines);
      VerifyOneMore(h, lines[..n], lines[n]);
      if !Verify(h, lines[..n]).Accepted? {
        FirstBadLine(h, lines[..n]);
        var m := Verify(h, lines).line;
        assert lines[..n][..m - 1] == lines[..m - 1] && lines[..n][m - 1] == lines[m - 1];
      }
    }
  }

  // ---------------------------------------------------------------- tamper evidence

  ghost predicate CollisionFree(h: Hash) {
    (forall p, q :: h(p) == h(q) ==> p == q) && forall p :: h(p) != GENESIS
  }

  lemma {:induction false} ChainEndDetermines(h: Hash, a: seq<Payload>, b: seq<Payload>)
    requires CollisionFree(h) && Chained(h, a) && Chained(h, b) && ChainEnd(h, a) == ChainEnd(h, b)
    ensures a == b
    decreases |a|
  {
    if a != [] && b != [] {
      var n, m := |a| - 1, |b| - 1;
      assert a[n] == b[m];
      LastApart(a);
      LastApart(b);
      ChainedOneMore(h, a[..n], a[n]);
      ChainedOneMore(h, b[..m], b[m]);
      ChainEndDetermines(h, a[..n], b[..m]);
    }
  }

  /** With a collision-free hash, two accepted logs that end on the same hash hold the same records: no record
      can be altered, inserted, dropped or moved without changing the last hash. */
  lemma SameEndSameLog(h: Hash, a: seq<Line>, b: seq<Line>)
    requires CollisionFree(h)
    requires Verify(h, a).Accepted? && Verify(h, b).Accepted? && Verify(h, a).lastHash == Verify(h, b).lastHash
    ensures Payloads(a) == Payloads(b)
  {
    VerifyMeans(h, a);
    VerifyMeans(h, b);
    ChainEndDetermines(h, Payloads(a), Payloads(b));
  }

  /** What the chain alone cannot show: every prefix of an accepted log is accepted, and so is a log whose
      records have gained or lost keys outside the hashed payload. */
  lemma PrefixAccepted(h: Hash, a: seq<Line>, b: seq<Line>)
    requires Verify(h, a + b).Accepted?
    ensures Verify(h, a).Accepted?
  {
    VerifyMeans(h, a + b);
    VerifyMeans(h, a);
    PayloadsConcat(a, b);
    ChainedPrefix(h, Payloads(a), Payloads(b));
    assert forall l :: l in a ==> l in a + b;
  }

  lemma ExtraKeysUnprotected(h: Hash, lines: seq<Line>, i: nat, extra: map<string, string>)
    requires i < |lines| && lines[i].Json?
    ensures Verify(h, lines[i := Json(lines[i].record.(extra := extra))]) == Verify(h, lines)
  {
    ExtraFrom(h, lines, i, extra, 0, GENESIS);
  }

  lemma {:induction false} ExtraFrom(h: Hash, lines: seq<Line>, i: nat, extra: map<string, string>, k: nat, prevHash: string)
    requires i < |lines| && lines[i].Json? && k <= |lines|
    ensures VerifyFrom(h, lines[i := Json(lines[i].record.(extra := extra))], k, prevHash) == VerifyFrom(h, lines, k, prevHash)
    decreases |lines| - k
  {
    if k < |lines| {
      match lines[k]
      case Garbage =>
      case NotObject =>
      case Blank => ExtraFrom(h, lines, i, extra, k + 1, prevHash);
      case Json(r) =>
        if r.hash.Some? {
          ExtraFrom(h, lines, i, extra, k + 1, r.hash.value);
        }
    }
  }

  // ---------------------------------------------------------------- appending

  /** On an accepted log `_last_hash` is the hash that `verify_chain` ends on. */
  lemma {:induction false} LastHashIsEnd(h: Hash, lines: seq<Line>)
    requires (forall p :: h(p) != "") && Sealed(h, lines)
    ensures LastHash(lines) == Some(ChainEnd(h, Payloads(lines)))
  {
    if lines != [] {
      var n := |lines| - 1;
      assert lines[n] in lines;
      assert forall l :: l in lines[..n] ==> l in lines;
      LastHashIsEnd(h, lines[..n]);
    }
  }

  predicate CarriesHash(l: Line) {
    l.Json? && l.record.hash.Some? && l.record.hash.value != ""
  }

  /** Line i is the last one that carries a nonempty hash. */
  predicate LastCarrier(lines: seq<Line>, i: nat) {
    i < |lines| && CarriesHash(lines[i]) && forall j :: i < j < |lines| ==> !CarriesHash(lines[j])
  }

  /** `_last_hash` on any log: an exception if some line is no JSON object, else the nonempty hash that comes last, and
      GENESIS if there is none. */
  lemma {:induction false} LastHashMeans(lines: seq<Line>)
    ensures LastHash(lines).None? <==> exists i :: 0 <= i < |lines| && (lines[i].Garbage? || lines[i].NotObject?)
    ensures LastHash(lines).Some? ==>
      || (LastHash(lines).value == "GENESIS" && forall i :: 0 <= i < |lines| ==> !CarriesHash(lines[i]))
      || (exists i: nat :: LastCarrier(lines, i) && LastHash(lines) == lines[i].record.hash)
  {
    if lines != [] {
      var n := |lines| - 1;
      var front := lines[..n];
      LastHashMeans(front);
      assert forall i :: 0 <= i < n ==> front[i] == lines[i];
      if LastHash(lines).Some? && CarriesHash(lines[n]) {
        assert LastCarrier(lines, n) && LastHash(lines) == lines[n].record.hash;
      } else if LastHash(lines).Some? {
        if i: nat :| LastCarrier(front, i) && LastHash(front) == front[i].record.hash {
          assert LastCarrier(lines, i) && LastHash(lines) == lines[i].record.hash;
        }
      }
    }
  }

  /** `append` keeps an accepted log accepted, and the log then ends on the hash of the new record. */
  lemma AppendKeepsAccepted(h: Hash, lines: seq<Line>, body: Body)
    requires (forall p :: h(p) != "") && Verify(h, lines).Accepted?
    ensures var last := LastHash(lines);
      && last == Some(Verify(h, lines).lastHash)
      && var r := NewRecord(h, body, last.value);
      Verify(h, lines + [Json(r)]) == Accepted(r.hash.value)
  {
    VerifyMeans(h, lines);
    LastHashIsEnd(h, lines);
    var r := NewRecord(h, body, LastHash(lines).value);
    PayloadsConcat(lines, [Json(r)]);
    assert [Json(r)][..0] == [];
    assert Payloads([Json(r)]) == [r.payload];
    ChainedOneMore(h, Payloads(lines), r.payload);
    VerifyMeans(h, lines + [Json(r)]);
  }

  /** The log after appending several bodies one after the other. */
  function AppendAll(h: Hash, lines: seq<Line>, bodies: seq<Body>): seq<Line> {
    if bodies == [] then lines
    else
      var before := AppendAll(h, lines, bodies[..|bodies| - 1]);
      var last := LastHash(before);
      if last.None? then before else before + [Json(NewRecord(h, bodies[|bodies| - 1], last.value))]
  }

  function Bodies(ps: seq<Payload>): (r: seq<Body>)
    ensures |r| == |ps| && forall i :: 0 <= i < |ps| ==> r[i] == ps[i].body
  {
    seq(|ps|, i requires 0 <= i < |ps| => ps[i].body)
  }

  /** Appending any list of bodies to an accepted log keeps it accepted, and it then records what it did before,
      followed by exactly that list. */
  lemma {:induction false} AppendedBodies(h: Hash, lines: seq<Line>, bodies: seq<Body>)
    requires (forall p :: h(p) != "") && Verify(h, lines).Accepted?
    ensures Verify(h, AppendAll(h, lines, bodies)).Accepted?
    ensures Bodies(Payloads(AppendAll(h, lines, bodies))) == Bodies(Payloads(lines)) + bodies
  {
    if bodies != [] {
      var n := |bodies| - 1;
      AppendedBodies(h, lines, bodies[..n]);
      LastApart(bodies);
      var before := AppendAll(h, lines, bodies[..n]);
      AppendKeepsAccepted(h, before, bodies[n]);
      var r := NewRecord(h, bodies[n], LastHash(before).value);
      PayloadsOneMore(before + [Json(r)], |before|);
      assert (before + [Json(r)])[..|before|] == before && (before + [Json(r)])[..|before| + 1] == before + [Json(r)];
      assert Bodies(Payloads(before) + [r.payload]) == Bodies(Payloads(before)) + [bodies[n]];
    } else {
      assert Bodies(Payloads(lines)) + [] == Bodies(Payloads(lines));
    }
  }

  /** Conversely, `append` never repairs a log: it is accepted afterwards only if it was before. */
  lemma AppendNeverRepairs(h: Hash, lines: seq<Line>, r: Record)
    requires !Verify(h, lines).Accepted?
    ensures !Verify(h, lines + [Json(r)]).Accepted?
  {
    if Verify(h, lines + [Json(r)]).Accepted? {
      PrefixAccepted(h, lines, [Json(r)]);
    }
  }

  class ImmutableJsonlAuditLog {
    const hash: Hash
    var lines: seq<Line>

    constructor (hash: Hash, lines: seq<Line>)
      ensures this.hash == hash && this.lines == lines
    {
      this.hash, this.lines := hash, lines;
    }

    /** None where the source raises. */
    method ReadLastHash() returns (r: Option<string>)
      ensures r == LastHash(lines)
    {
      var last := GENESIS;
      for i := 0 to |lines|
        invariant LastHash(lines[..i]) == Some(last)
      {
        assert lines[..i + 1][..i] == lines[..i];
        if lines[i].Garbage? || lines[i].NotObject? {
          GarbageRaises(lines, i + 1);
          return None;
        }
        if lines[i].Json? && lines[i].record.hash.Some? && lines[i].record.hash.value != "" {
          last := lines[i].record.hash.value;
        }
      }
      assert lines[..|lines|] == lines;
      r := Some(last);
    }

    method Append(body: Body) returns (r: Option<Record>)
      modifies this
      ensures LastHash(old(lines)).None? ==> r.None? && lines == old(lines)
      ensures LastHash(old(lines)).Some? ==>
        && r == Some(NewRecord(hash, body, LastHash(old(lines)).value)) && lines == old(lines) + [Json(r.value)]
        && r.value.payload.body == body && r.value.payload.prevHash == LastHash(old(lines))
        && r.value.hash == Some(hash(r.value.payload)) && r.value.extra == map[]
    {
      var last := ReadLastHash();
      if last.None? {
        return None;
      }
      var record := NewRecord(hash, body, last.value);
      lines := lines + [Json(record)];
      r := Some(record);
    }

    method VerifyChain() returns (v: Verdict)
      ensures v == Verify(hash, lines)
    {
      var prevHash := GENESIS;
      for i := 0 to |lines|
        invariant Verify(hash, lines) == VerifyFrom(hash, lines, i, prevHash)
      {
        match lines[i] {
          case Blank =>
          case Garbage => return InvalidJson(i + 1);
          case NotObject => return Raises(i + 1);
          case Json(record) =>
            if record.payload.prevHash != Some(prevHash) {
              return PrevMismatch(i + 1);
            }
            if record.hash != Some(hash(record.payload)) {
              return HashMismatch(i + 1);
            }
            prevHash := record.hash.value;
        }
      }
      v := Accepted(prevHash);
    }
  }

  lemma {:induction false} GarbageRaises(lines: seq<Line>, n: nat)
    requires n <= |lines| && LastHash(lines[..n]).None?
    ensures LastHash(lines).None?
    decreases |lines| - n
  {
    if n == |lines| {
      assert lines[..n] == lines;
    } else {
      assert lines[..n + 1][..n] == lines[..n];
      GarbageRaises(lines, n + 1);
    }
  }
}

/** The in-memory signal deduplicator (agents/orchestration/signal_deduplicator.py).

    A call reads the clock several times: once per cached entry while it scans for expired ones, once for the
    duplicate check and once for the stamp of a new entry. */
module SignalDeduplicator {
  import opened Common
  import opened StableSort

  datatype Entry = Entry(key: string, createdAt: real)

  /** The cache dict in insertion order; keys are unique, and assigning to a present key keeps its place. */
  type Cache = seq<Entry>

  datatype Config = Config(ttl: real, maxCacheSize: int)

  datatype Readings = Readings(scan: seq<real>, check: real, stamp: real)

  predicate Expired(e: Entry, now: real, ttl: real) {
    now - e.createdAt > ttl
  }

  predicate UniqueKeys(c: Cache) {
    forall i, j :: 0 <= i < j < |c| ==> c[i].key != c[j].key
  }

  function Keys(c: Cache): (r: seq<string>)
    ensures |r| == |c| && forall i :: 0 <= i < |r| ==> r[i] == c[i].key
  {
    seq(|c|, i requires 0 <= i < |c| => c[i].key)
  }

  /** The entries whose key is not among ks. */
  function Without(c: Cache, ks: seq<string>): Cache {
    if c == [] then []
    else
      var last := c[|c| - 1];
      Without(c[..|c| - 1], ks) + if last.key in ks then [] else [last]
  }

  function ExpiredKeys(c: Cache, scan: seq<real>, ttl: real): seq<string>
    requires |scan| == |c|
  {
    if c == [] then []
    else
      var n := |c| - 1;
      ExpiredKeys(c[..n], scan[..n], ttl) + if Expired(c[n], scan[n], ttl) then [c[n].key] else []
  }

  function Age(e: Entry): real {
    e.createdAt
  }

  /** The keys that the capacity rule removes. */
  function Oldest(c: Cache, maxCacheSize: int): seq<string> {
    if |c| < maxCacheSize then []
    else
      var sorted := Sort(Age, c);
      Keys(sorted[..Min(|sorted|, |c| - maxCacheSize + 1)])
  }

  function Unexpired(c: Cache, scan: seq<real>, ttl: real): Cache
    requires |scan| == |c|
  {
    Without(c, ExpiredKeys(c, scan, ttl))
  }

  function Evicted(c: Cache, scan: seq<real>, config: Config): Cache
    requires |scan| == |c|
  {
    var live := Unexpired(c, scan, config.ttl);
    Without(live, Oldest(live, config.maxCacheSize))
  }

  function Find(c: Cache, key: string): (i: nat)
    ensures i <= |c| && (i < |c| ==> c[i].key == key)
    ensures forall j :: 0 <= j < i ==> c[j].key != key
  {
    if c == [] || c[0].key == key then 0 else 1 + Find(c[1..], key)
  }

  function Put(c: Cache, e: Entry): Cache {
    var i := Find(c, e.key);
    if i < |c| then c[i := e] else c + [e]
  }

  predicate Duplicate(c: Cache, key: string, now: real, ttl: real) {
    Find(c, key) < |c| && !Expired(c[Find(c, key)], now, ttl)
  }

  // ---------------------------------------------------------------- what eviction removes

  lemma {:induction false} WithoutMembers(c: Cache, ks: seq<string>)
    ensures forall e :: e in Without(c, ks) <==> e in c && e.key !in ks
    ensures UniqueKeys(c) ==> UniqueKeys(Without(c, ks))
    ensures |Without(c, ks)| <= |c|
  {
    if c != [] {
      var n := |c| - 1;
      WithoutMembers(c[..n], ks);
      LastApart(c);
      var rest := Without(c[..n], ks);
      if UniqueKeys(c) && c[n].key !in ks {
        forall i | 0 <= i < |rest| ensures rest[i].key != c[n].key {
          assert rest[i] in rest;
        }
      }
    }
  }

  lemma {:induction false} ExpiredMembers(c: Cache, scan: seq<real>, ttl: real)
    requires |scan| == |c|
    ensures forall k ::
      k in ExpiredKeys(c, scan, ttl) <==> exists i :: 0 <= i < |c| && c[i].key == k && Expired(c[i], scan[i], ttl)
  {
    if c != [] {
      var n := |c| - 1;
      ExpiredMembers(c[..n], scan[..n], ttl);
      forall k
        ensures k in ExpiredKeys(c, scan, ttl)
          <==> exists i :: 0 <= i < |c| && c[i].key == k && Expired(c[i], scan[i], ttl)
      {
        if i :| 0 <= i < |c| && c[i].key == k && Expired(c[i], scan[i], ttl) {
          if i < n {
            assert c[..n][i].key == k && Expired(c[..n][i], scan[..n][i], ttl);
          }
        }
        if i :| 0 <= i < |c[..n]| && c[..n][i].key == k && Expired(c[..n][i], scan[..n][i], ttl) {
          assert c[i].key == k && Expired(c[i], scan[i], ttl);
        }
      }
    }
  }

  /** With unique keys, removing present keys removes one entry each. */
  lemma {:induction false} WithoutCount(c: Cache, victims: Cache, n: nat)
    requires UniqueKeys(c) && n <= |victims|
    requires multiset(victims) == multiset(c)
    ensures |Without(c, Keys(victims[..n]))| == |c| - n
  {
    if n == 0 {
      WithoutNothing(c);
      assert Keys(victims[..0]) == [];
    } else {
      WithoutCount(c, victims, n - 1);
      var before := Keys(victims[..n - 1]);
      var v := victims[n - 1];
      assert Keys(victims[..n]) == before + [v.key];
      UniqueKeysSame(c, victims);
      assert v in multiset(victims) && v in c;
      assert v.key !in before by {
        forall i | 0 <= i < n - 1 ensures before[i] != v.key {
          assert victims[i].key != v.key;
        }
      }
      WithoutOneMore(c, before, v);
    }
  }

  lemma {:induction false} WithoutNothing(c: Cache)
    ensures Without(c, []) == c
  {
    if c != [] {
      WithoutNothing(c[..|c| - 1]);
    }
  }

  lemma {:induction false} WithoutOneMore(c: Cache, ks: seq<string>, v: Entry)
    requires UniqueKeys(c) && v in c && v.key !in ks
    ensures |Without(c, ks + [v.key])| == |Without(c, ks)| - 1
  {
    var n := |c| - 1;
    if c[n] == v {
      WithoutStranger(c[..n], ks, v.key);
    } else {
      assert v in c[..n];
      var i :| 0 <= i < n && c[i] == v;
      assert c[n].key != v.key;
      WithoutOneMore(c[..n], ks, v);
    }
  }

  lemma {:induction false} WithoutStranger(c: Cache, ks: seq<string>, k: string)
    requires forall e :: e in c ==> e.key != k
    ensures Without(c, ks + [k]) == Without(c, ks)
  {
    if c != [] {
      assert forall e :: e in c[..|c| - 1] ==> e in c;
      WithoutStranger(c[..|c| - 1], ks, k);
      assert c[|c| - 1] in c;
    }
  }

  lemma UniqueKeysSame(a: Cache, b: Cache)
    requires UniqueKeys(a) && multiset(a) == multiset(b)
    ensures UniqueKeys(b)
  {
    forall i, j | 0 <= i < j < |b| ensures b[i].key != b[j].key {
      assert b[i] in multiset(b) && b[j] in multiset(b);
      var x :| 0 <= x < |a| && a[x] == b[i];
      var y :| 0 <= y < |a| && a[y] == b[j];
      if x == y {
        TwiceInMultiset(b, i, j);
        OnceInMultiset(a, b[i]);
      }
    }
  }

  lemma GoneIsOlder(c: Cache, maxCacheSize: int, gone: Entry, kept: Entry)
    requires UniqueKeys(c) && gone in c && gone.key in Oldest(c, maxCacheSize)
    requires kept in c && kept.key !in Oldest(c, maxCacheSize)
    ensures gone.createdAt <= kept.createdAt
  {
    var sorted := Sort(Age, c);
    var n := Min(|sorted|, |c| - maxCacheSize + 1);
    SortSorted(Age, c);
    SortMembers(Age, c);
    var i :| 0 <= i < n && Keys(sorted[..n])[i] == gone.key;
    assert sorted[i] in sorted && sorted[i].key == gone.key;
    SameKeySameEntry(c, sorted[i], gone);
    assert forall k :: 0 <= k < n ==> Keys(sorted[..n])[k] == sorted[k].key;
    var j :| 0 <= j < |sorted| && sorted[j] == kept;
    assert Age(sorted[i]) <= Age(sorted[j]);
  }

  /** The capacity rule, when it applies, removes exactly the surplus, and only entries that are no newer
      than any entry it keeps. */
  lemma CapacityRemovesOldest(c: Cache, maxCacheSize: int)
    requires UniqueKeys(c) && |c| >= maxCacheSize
    ensures |Without(c, Oldest(c, maxCacheSize))| == Max(0, Min(|c|, maxCacheSize - 1))
    ensures forall gone, kept :: gone in c && gone.key in Oldest(c, maxCacheSize) ==>
      kept in Without(c, Oldest(c, maxCacheSize)) ==> gone.createdAt <= kept.createdAt
  {
    SortPermutes(Age, c);
    WithoutCount(c, Sort(Age, c), Min(|c|, |c| - maxCacheSize + 1));
    WithoutMembers(c, Oldest(c, maxCacheSize));
    forall gone, kept | gone in c && gone.key in Oldest(c, maxCacheSize) && kept in Without(c, Oldest(c, maxCacheSize))
      ensures gone.createdAt <= kept.createdAt
    {
      GoneIsOlder(c, maxCacheSize, gone, kept);
    }
  }

  lemma SameKeySameEntry(c: Cache, a: Entry, b: Entry)
    requires UniqueKeys(c) && a in c && b in c && a.key == b.key
    ensures a == b
  {
    var i :| 0 <= i < |c| && c[i] == a;
    var j :| 0 <= j < |c| && c[j] == b;
  }

  lemma UnexpiredMembers(c: Cache, scan: seq<real>, ttl: real)
    requires UniqueKeys(c) && |scan| == |c|
    ensures UniqueKeys(Unexpired(c, scan, ttl)) && forall e :: e in Unexpired(c, scan, ttl) ==> e in c
    ensures forall i :: 0 <= i < |c| ==> (c[i] in Unexpired(c, scan, ttl) <==> scan[i] - c[i].createdAt <= ttl)
  {
    ExpiredMembers(c, scan, ttl);
    WithoutMembers(c, ExpiredKeys(c, scan, ttl));
    forall i | 0 <= i < |c| ensures c[i] in Unexpired(c, scan, ttl) <==> scan[i] - c[i].createdAt <= ttl {
      assert c[i] in c;
      if j :| 0 <= j < |c| && c[j].key == c[i].key && Expired(c[j], scan[j], ttl) {
        assert j == i;
      }
    }
  }

  /** What eviction leaves: every entry past its time goes; if what is left is below the limit it all stays, and
      otherwise all but max_cache_size - 1 of it go, none of them newer than one that stays. */
  lemma EvictedMeans(c: Cache, scan: seq<real>, config: Config)
    requires UniqueKeys(c) && |scan| == |c|
    ensures var live, kept := Unexpired(c, scan, config.ttl), Evicted(c, scan, config);
      && (forall i :: 0 <= i < |c| ==> (c[i] in live <==> scan[i] - c[i].createdAt <= config.ttl))
      && (forall e :: e in kept ==> e in live)
      && (|live| < config.maxCacheSize ==> kept == live)
      && (|live| >= config.maxCacheSize ==>
            && |kept| == Max(0, config.maxCacheSize - 1)
            && forall gone, stays :: gone in live && gone !in kept && stays in kept ==> gone.createdAt <= stays.createdAt)
  {
    var live := Unexpired(c, scan, config.ttl);
    UnexpiredMembers(c, scan, config.ttl);
    WithoutMembers(live, Oldest(live, config.maxCacheSize));
    if |live| >= config.maxCacheSize {
      CapacityRemovesOldest(live, config.maxCacheSize);
    } else {
      WithoutNothing(live);
    }
  }

  // ---------------------------------------------------------------- every run against the plain history

  datatype Acceptance = Acceptance(key: string, at: real)

  /** `history` is the plain record of accepted signals; `victims` holds the keys whose latest acceptance
      was dropped by the capacity rule, with its time. */
  datatype System = System(cache: Cache, history: seq<Acceptance>, victims: map<string, real>, clock: real)

  datatype Signal = Signal(key: string, readings: Readings)

  predicate Clocked(s: System, sig: Signal) {
    && |sig.readings.scan| == |s.cache|
    && (forall i :: 0 <= i < |s.cache| ==> s.clock <= sig.readings.scan[i] <= sig.readings.check)
    && s.clock <= sig.readings.check <= sig.readings.stamp
  }

  /** The plain rule: an acceptance of the same key within the last ttl seconds. */
  predicate Recent(history: seq<Acceptance>, key: string, now: real, ttl: real) {
    exists h :: h in history && h.key == key && now - h.at <= ttl
  }

  function Accepts(s: System, sig: Signal, config: Config): bool
    requires Clocked(s, sig)
  {
    !Duplicate(Evicted(s.cache, sig.readings.scan, config), sig.key, sig.readings.check, config.ttl)
  }

  /** The victims after the eviction that opens the call. */
  function NewVictims(s: System, sig: Signal, config: Config): map<string, real>
    requires Clocked(s, sig)
  {
    var live := Unexpired(s.cache, sig.readings.scan, config.ttl);
    var gone := Oldest(live, config.maxCacheSize);
    s.victims + map k | k in gone && Find(live, k) < |live| :: live[Find(live, k)].createdAt
  }

  function Step(s: System, sig: Signal, config: Config): System
    requires Clocked(s, sig)
  {
    var c, v := Evicted(s.cache, sig.readings.scan, config), NewVictims(s, sig, config);
    if !Accepts(s, sig, config) then System(c, s.history, v, sig.readings.check)
    else
      System(Put(c, Entry(sig.key, sig.readings.stamp)), s.history + [Acceptance(sig.key, sig.readings.stamp)],
             v - {sig.key}, sig.readings.stamp)
  }

  function Start(clock: real): System {
    System([], [], map[], clock)
  }

  ghost predicate LatestAt(history: seq<Acceptance>, key: string, at: real) {
    Acceptance(key, at) in history && forall h :: h in history && h.key == key ==> h.at <= at
  }

  ghost predicate Inv(s: System, config: Config) {
    && UniqueKeys(s.cache)
    && (forall e :: e in s.cache ==> LatestAt(s.history, e.key, e.createdAt) && e.key !in s.victims)
    && (forall k :: k in s.victims ==> LatestAt(s.history, k, s.victims[k]))
    && (forall h :: h in s.history ==> h.at <= s.clock)
    && (forall h :: h in s.history && s.clock - h.at <= config.ttl ==> h.key in Keys(s.cache) || h.key in s.victims)
  }

  lemma KeysMember(c: Cache, k: string)
    ensures k in Keys(c) <==> exists e :: e in c && e.key == k
  {
    if i :| 0 <= i < |c| && Keys(c)[i] == k {
      assert c[i] in c;
    }
    if e :| e in c && e.key == k {
      var i :| 0 <= i < |c| && c[i] == e;
      assert Keys(c)[i] == k;
    }
  }

  lemma FindMember(c: Cache, k: string)
    ensures Find(c, k) < |c| <==> k in Keys(c)
  {
    assert Find(c, k) < |c| ==> Keys(c)[Find(c, k)] == k;
    if k in Keys(c) {
      var i :| 0 <= i < |c| && Keys(c)[i] == k;
    }
  }

  /** What eviction does to the key of an entry: an expired key goes, a live key stays or becomes a victim. */
  lemma EvictionCases(s: System, sig: Signal, config: Config, e: Entry)
    requires Inv(s, config) && Clocked(s, sig) && e in s.cache
    ensures var c := Evicted(s.cache, sig.readings.scan, config);
      var v := NewVictims(s, sig, config);
      || (e in c && e.key !in v)
      || (e !in c && e.key in v && v[e.key] == e.createdAt)
      || (e !in c && e.key !in v && sig.readings.check - e.createdAt > config.ttl)
  {
    var scan := sig.readings.scan;
    var live := Unexpired(s.cache, scan, config.ttl);
    var gone := Oldest(live, config.maxCacheSize);
    WithoutMembers(s.cache, ExpiredKeys(s.cache, scan, config.ttl));
    ExpiredMembers(s.cache, scan, config.ttl);
    WithoutMembers(live, gone);
    FindMember(live, e.key);
    KeysMember(live, e.key);
    if e in live {
      SameKeySameEntry(live, e, live[Find(live, e.key)]) by {
        assert live[Find(live, e.key)] in live;
      }
    } else {
      var i :| 0 <= i < |s.cache| && s.cache[i].key == e.key && Expired(s.cache[i], scan[i], config.ttl);
      SameKeySameEntry(s.cache, s.cache[i], e);
      assert e.key !in Keys(live);
    }
  }

  lemma EvictedMembers(s: System, sig: Signal, config: Config)
    requires Inv(s, config) && Clocked(s, sig)
    ensures var c := Evicted(s.cache, sig.readings.scan, config);
      UniqueKeys(c) && forall e :: e in c ==> e in s.cache
  {
    var live := Unexpired(s.cache, sig.readings.scan, config.ttl);
    WithoutMembers(s.cache, ExpiredKeys(s.cache, sig.readings.scan, config.ttl));
    WithoutMembers(live, Oldest(live, config.maxCacheSize));
  }

  /** A new victim comes from the cache. */
  lemma VictimOrigin(s: System, sig: Signal, config: Config, k: string)
    requires Inv(s, config) && Clocked(s, sig) && k in NewVictims(s, sig, config)
    ensures LatestAt(s.history, k, NewVictims(s, sig, config)[k])
    ensures k !in Keys(Evicted(s.cache, sig.readings.scan, config))
  {
    var live := Unexpired(s.cache, sig.readings.scan, config.ttl);
    var gone := Oldest(live, config.maxCacheSize);
    var c := Evicted(s.cache, sig.readings.scan, config);
    WithoutMembers(s.cache, ExpiredKeys(s.cache, sig.readings.scan, config.ttl));
    WithoutMembers(live, gone);
    KeysMember(c, k);
    if k in gone && Find(live, k) < |live| {
      assert live[Find(live, k)] in live;
    } else {
      assert k in s.victims;
    }
  }

  /** The invariant between the eviction and the decision, at the time of the check. */
  lemma EvictionKeepsInv(s: System, sig: Signal, config: Config)
    requires Inv(s, config) && Clocked(s, sig)
    ensures Inv(System(Evicted(s.cache, sig.readings.scan, config), s.history, NewVictims(s, sig, config),
                       sig.readings.check), config)
  {
    var c, v := Evicted(s.cache, sig.readings.scan, config), NewVictims(s, sig, config);
    EvictedMembers(s, sig, config);
    forall e | e in c ensures LatestAt(s.history, e.key, e.createdAt) && e.key !in v {
      EvictionCases(s, sig, config, e);
    }
    forall k | k in v ensures LatestAt(s.history, k, v[k]) {
      VictimOrigin(s, sig, config, k);
    }
    forall h | h in s.history && sig.readings.check - h.at <= config.ttl ensures h.key in Keys(c) || h.key in v {
      if h.key in Keys(s.cache) {
        KeysMember(s.cache, h.key);
        var e :| e in s.cache && e.key == h.key;
        EvictionCases(s, sig, config, e);
        KeysMember(c, h.key);
      } else {
        assert h.key in s.victims;
      }
    }
  }

  /** In a state that satisfies the invariant now, a key is a live duplicate exactly when the plain rule finds
      a recent acceptance and the capacity rule has not dropped it. */
  lemma DuplicateExactlyWhen(s: System, key: string, config: Config)
    requires Inv(s, config)
    ensures Duplicate(s.cache, key, s.clock, config.ttl)
      <==> Recent(s.history, key, s.clock, config.ttl) && key !in s.victims
  {
    FindMember(s.cache, key);
    var i := Find(s.cache, key);
    if i < |s.cache| {
      var e := s.cache[i];
      assert e in s.cache;
      if Recent(s.history, key, s.clock, config.ttl) {
        var h :| h in s.history && h.key == key && s.clock - h.at <= config.ttl;
      }
      if Duplicate(s.cache, key, s.clock, config.ttl) {
        assert Acceptance(key, e.createdAt) in s.history;
      }
    }
  }

  /** In all runs: a signal is accepted exactly when no acceptance of its key happened within the last ttl, or
      the capacity rule has dropped the key since its latest acceptance (possibly in this very call). */
  lemma AcceptsExactlyWhen(s: System, sig: Signal, config: Config)
    requires Inv(s, config) && Clocked(s, sig)
    ensures Accepts(s, sig, config)
      <==> !Recent(s.history, sig.key, sig.readings.check, config.ttl) || sig.key in NewVictims(s, sig, config)
  {
    EvictionKeepsInv(s, sig, config);
    var t := System(Evicted(s.cache, sig.readings.scan, config), s.history, NewVictims(s, sig, config), sig.readings.check);
    DuplicateExactlyWhen(t, sig.key, config);
  }

  /** Assigning to a key of the cache keeps its place; a new key comes last. */
  lemma PutKeepsPlace(c: Cache, e: Entry)
    ensures e.key in Keys(c) ==> exists i :: 0 <= i < |c| && c[i].key == e.key && Put(c, e) == c[i := e]
    ensures e.key !in Keys(c) ==> Put(c, e) == c + [e]
  {
    FindMember(c, e.key);
  }

  lemma PutMembers(c: Cache, e: Entry)
    requires UniqueKeys(c)
    ensures UniqueKeys(Put(c, e))
    ensures forall x :: x in Put(c, e) <==> x == e || (x in c && x.key != e.key)
    ensures |Put(c, e)| == if e.key in Keys(c) then |c| else |c| + 1
  {
    var p, i := Put(c, e), Find(c, e.key);
    FindMember(c, e.key);
    forall x ensures x in p <==> x == e || (x in c && x.key != e.key) {
      if x in p {
        var j :| 0 <= j < |p| && p[j] == x;
        if j != i {
          assert c[j] in c;
        }
      }
      if x == e {
        assert p[i] == e;
      } else if x in c && x.key != e.key {
        var j :| 0 <= j < |c| && c[j] == x;
        assert p[j] == x;
      }
    }
  }

  lemma StepKeepsInv(s: System, sig: Signal, config: Config)
    requires Inv(s, config) && Clocked(s, sig)
    ensures Inv(Step(s, sig, config), config) && Step(s, sig, config).clock >= s.clock
  {
    EvictionKeepsInv(s, sig, config);
    if Accepts(s, sig, config) {
      var t := System(Evicted(s.cache, sig.readings.scan, config), s.history, NewVictims(s, sig, config), sig.readings.check);
      AcceptKeepsInv(t, sig.key, sig.readings.stamp, config);
    }
  }

  lemma AcceptKeepsInv(t: System, key: string, stamp: real, config: Config)
    requires Inv(t, config) && t.clock <= stamp
    ensures Inv(System(Put(t.cache, Entry(key, stamp)), t.history + [Acceptance(key, stamp)], t.victims - {key}, stamp), config)
  {
    var a, e := Acceptance(key, stamp), Entry(key, stamp);
    var u := System(Put(t.cache, e), t.history + [a], t.victims - {key}, stamp);
    PutMembers(t.cache, e);
    forall x | x in u.cache ensures LatestAt(u.history, x.key, x.createdAt) && x.key !in u.victims {
      assert u.history[|t.history|] == a;
    }
    forall k | k in u.victims ensures LatestAt(u.history, k, u.victims[k]) {
      assert LatestAt(t.history, k, t.victims[k]);
    }
    forall h | h in u.history && stamp - h.at <= config.ttl ensures h.key in Keys(u.cache) || h.key in u.victims {
      KeysMember(u.cache, h.key);
      KeysMember(t.cache, h.key);
      if h.key == key {
        assert e in u.cache;
      } else {
        assert h in t.history;
        if x :| x in t.cache && x.key == h.key {
          assert x in u.cache;
        }
      }
    }
  }

  ghost predicate RunFrom(signals: seq<Signal>, states: seq<System>, config: Config) {
    && |states| == |signals| + 1 && states[0] == Start(states[0].clock)
    && forall i :: 0 <= i < |signals| ==> Clocked(states[i], signals[i]) && states[i + 1] == Step(states[i], signals[i], config)
  }

  lemma {:induction false} EveryRun(signals: seq<Signal>, states: seq<System>, config: Config, i: nat)
    requires RunFrom(signals, states, config) && i < |states|
    ensures Inv(states[i], config)
    ensures |states[i].cache| <= Max(1, config.maxCacheSize)
  {
    if i > 0 {
      EveryRun(signals, states, config, i - 1);
      StepKeepsInv(states[i - 1], signals[i - 1], config);
      StepSize(states[i - 1], signals[i - 1], config);
    }
  }

  /** The cache never holds more than max(1, maxCacheSize) entries. */
  lemma StepSize(s: System, sig: Signal, config: Config)
    requires Inv(s, config) && Clocked(s, sig)
    ensures |Step(s, sig, config).cache| <= Max(1, config.maxCacheSize)
  {
    var live := Unexpired(s.cache, sig.readings.scan, config.ttl);
    var c := Evicted(s.cache, sig.readings.scan, config);
    WithoutMembers(s.cache, ExpiredKeys(s.cache, sig.readings.scan, config.ttl));
    EvictedMembers(s, sig, config);
    if |live| >= config.maxCacheSize {
      CapacityRemovesOldest(live, config.maxCacheSize);
    } else {
      WithoutMembers(live, Oldest(live, config.maxCacheSize));
    }
    PutMembers(c, Entry(sig.key, sig.readings.stamp));
  }

  /** Fewer than maxCacheSize entries are live when the call looks at the cache. */
  predicate Roomy(s: System, sig: Signal, config: Config)
    requires Clocked(s, sig)
  {
    |Unexpired(s.cache, sig.readings.scan, config.ttl)| < config.maxCacheSize
  }

  lemma {:induction false} RoomyHasNoVictims(signals: seq<Signal>, states: seq<System>, config: Config, i: nat)
    requires RunFrom(signals, states, config) && i < |states|
    requires forall j :: 0 <= j < i ==> Roomy(states[j], signals[j], config)
    ensures states[i].victims == map[]
  {
    if i > 0 {
      RoomyHasNoVictims(signals, states, config, i - 1);
      assert Roomy(states[i - 1], signals[i - 1], config);
    }
  }

  /** While there is room at every call, the cache decides exactly as the plain history does. */
  lemma RefinesHistory(signals: seq<Signal>, states: seq<System>, config: Config, i: nat)
    requires RunFrom(signals, states, config) && i < |signals|
    requires forall j :: 0 <= j <= i ==> Roomy(states[j], signals[j], config)
    ensures Accepts(states[i], signals[i], config)
      <==> !Recent(states[i].history, signals[i].key, signals[i].readings.check, config.ttl)
  {
    EveryRun(signals, states, config, i);
    RoomyHasNoVictims(signals, states, config, i);
    assert Roomy(states[i], signals[i], config);
    AcceptsExactlyWhen(states[i], signals[i], config);
  }

  // ---------------------------------------------------------------- keys

  /** The text that is hashed into the key. */
  function RawKey(symbol: string, timestamp: string, signalType: string): string {
    symbol + ":" + timestamp + ":" + signalType
  }

  /** It starts with the symbol, ends with the type and has the timestamp between. */
  lemma RawKeyParts(symbol: string, timestamp: string, signalType: string)
    ensures var r, m := RawKey(symbol, timestamp, signalType), |symbol| + 1 + |timestamp|;
      && |r| == m + 1 + |signalType| && r[|symbol|] == ':' && r[m] == ':'
      && r[..|symbol|] == symbol && r[|symbol| + 1..m] == timestamp && r[m + 1..] == signalType
  {
  }

  lemma SplitAtColon(a: string, b: string, x: string, y: string)
    requires ':' !in a && ':' !in b && a + ":" + x == b + ":" + y
    ensures a == b && x == y
  {
    var s, t := a + ":" + x, b + ":" + y;
    assert |a| == |b| by {
      assert s[|a|] == ':' && t[|b|] == ':';
      assert forall i :: 0 <= i < |a| ==> s[i] == a[i];
      assert forall i :: 0 <= i < |b| ==> t[i] == b[i];
    }
    assert a == s[..|a|] && b == t[..|b|];
    assert x == s[|a| + 1..] && y == t[|b| + 1..];
  }

  lemma SplitAtLastColon(a: string, b: string, x: string, y: string)
    requires ':' !in x && ':' !in y && a + ":" + x == b + ":" + y
    ensures a == b && x == y
  {
    var s, t := a + ":" + x, b + ":" + y;
    assert |a| == |b| by {
      assert s[|a|] == ':' && t[|b|] == ':';
      assert forall i :: |a| < i < |s| ==> s[i] == x[i - |a| - 1];
      assert forall i :: |b| < i < |t| ==> t[i] == y[i - |b| - 1];
    }
    assert a == s[..|a|] && b == t[..|b|];
    assert x == s[|a| + 1..] && y == t[|b| + 1..];
  }

  /** Symbols and signal types without a colon keep different signals apart, whatever the timestamps. */
  lemma RawKeyInjective(s1: string, t1: string, k1: string, s2: string, t2: string, k2: string)
    requires ':' !in s1 && ':' !in s2 && ':' !in k1 && ':' !in k2
    ensures RawKey(s1, t1, k1) == RawKey(s2, t2, k2) <==> s1 == s2 && t1 == t2 && k1 == k2
  {
    if RawKey(s1, t1, k1) == RawKey(s2, t2, k2) {
      SplitAtLastColon(s1 + ":" + t1, s2 + ":" + t2, k1, k2);
      SplitAtColon(s1, s2, t1, t2);
    }
  }

  /** A colon in a symbol, and one in a signal type, can be moved into the timestamp and back. */
  lemma ColonMoves(a: string, b: string, t: string, k: string)
    ensures RawKey(a + ":" + b, t, k) == RawKey(a, b + ":" + t, k)
    ensures RawKey(t, a + ":" + b, k) == RawKey(t + ":" + a, b, k)
    ensures RawKey(t, k, a + ":" + b) == RawKey(t, k + ":" + a, b)
  {
    assert RawKey(a + ":" + b, t, k) == a + ":" + b + ":" + t + ":" + k == RawKey(a, b + ":" + t, k);
    assert RawKey(t, a + ":" + b, k) == t + ":" + a + ":" + b + ":" + k == RawKey(t + ":" + a, b, k);
    assert RawKey(t, k, a + ":" + b) == t + ":" + k + ":" + a + ":" + b == RawKey(t, k + ":" + a, b);
  }

  lemma SplitAtSomeColon(s: string) returns (a: string, b: string)
    requires ':' in s
    ensures s == a + ":" + b
  {
    var i :| 0 <= i < |s| && s[i] == ':';
    a, b := s[..i], s[i + 1..];
    assert s == s[..i] + [s[i]] + s[i + 1..];
  }

  function Colons(s: string): nat {
    multiset(s)[':']
  }

  lemma RawKeyColons(s: string, t: string, k: string)
    ensures Colons(RawKey(s, t, k)) == Colons(s) + Colons(t) + Colons(k) + 2
    ensures Colons(s) == 0 <==> ':' !in s
    ensures Colons(t) == 0 <==> ':' !in t
    ensures Colons(k) == 0 <==> ':' !in k
  {
    assert multiset(RawKey(s, t, k))
      == multiset(s) + multiset(":") + multiset(t) + multiset(":") + multiset(k);
    assert ':' in multiset(s) <==> ':' in s;
    assert ':' in multiset(t) <==> ':' in t;
    assert ':' in multiset(k) <==> ':' in k;
  }

  lemma AmbiguousWithColon(s: string, t: string, k: string) returns (s': string, t': string, k': string)
    requires ':' in s || ':' in t || ':' in k
    ensures RawKey(s', t', k') == RawKey(s, t, k) && (|s'| != |s| || |t'| != |t| || |k'| != |k|)
  {
    if ':' in s {
      var a, b := SplitAtSomeColon(s);
      ColonMoves(a, b, t, k);
      return a, b + ":" + t, k;
    } else if ':' in t {
      var a, b := SplitAtSomeColon(t);
      ColonMoves(a, b, s, k);
      return s + ":" + a, b, k;
    } else {
      var a, b := SplitAtSomeColon(k);
      ColonMoves(a, b, s, t);
      return s, t + ":" + a, b;
    }
  }

  lemma UniqueWithoutColon(s: string, t: string, k: string, s': string, t': string, k': string)
    requires ':' !in s && ':' !in t && ':' !in k && RawKey(s', t', k') == RawKey(s, t, k)
    ensures s' == s && t' == t && k' == k
  {
    RawKeyColons(s, t, k);
    RawKeyColons(s', t', k');
    RawKeyInjective(s', t', k', s, t, k);
  }

  /** Some other signal shares a signal's text if and only if one of the three parts contains a colon. */
  lemma RawKeyAmbiguousExactlyWhen(s: string, t: string, k: string)
    ensures (exists s', t', k' :: RawKey(s', t', k') == RawKey(s, t, k) && (s' != s || t' != t || k' != k))
      <==> ':' in s || ':' in t || ':' in k
  {
    if ':' in s || ':' in t || ':' in k {
      var s', t', k' := AmbiguousWithColon(s, t, k);
      assert s' != s || t' != t || k' != k;
    } else {
      forall s', t', k' | RawKey(s', t', k') == RawKey(s, t, k) ensures s' == s && t' == t && k' == k {
        UniqueWithoutColon(s, t, k, s', t', k');
      }
    }
  }

  // ---------------------------------------------------------------- the class

  datatype Stats = Stats(total: int, deduplicated: int, passed: int)

  lemma {:induction false} WithoutTwice(c: Cache, a: seq<string>, b: seq<string>)
    ensures Without(Without(c, a), b) == Without(c, a + b)
  {
    if c != [] {
      var n := |c| - 1;
      WithoutTwice(c[..n], a, b);
      var w := Without(c[..n], a);
      assert w + [] == w;
      assert (w + [c[n]])[..|w|] == w;
    }
  }

  class SignalDeduplicator {
    const config: Config
    var cache: Cache
    var stats: Stats

    constructor (config: Config)
      ensures this.config == config && cache == [] && stats == Stats(0, 0, 0)
    {
      this.config := config;
      cache, stats := [], Stats(0, 0, 0);
    }

    method Delete(keys: seq<string>)
      modifies this`cache
      ensures cache == Without(old(cache), keys)
    {
      WithoutNothing(cache);
      for i := 0 to |keys|
        invariant cache == Without(old(cache), keys[..i])
      {
        WithoutTwice(old(cache), keys[..i], [keys[i]]);
        assert keys[..i + 1] == keys[..i] + [keys[i]];
        cache := Without(cache, [keys[i]]);
      }
      assert keys[..|keys|] == keys;
    }

    /** The scan over the items of the cache; scan[i] is the clock reading for item i. */
    method ScanExpired(scan: seq<real>) returns (expired: seq<string>)
      requires |scan| == |cache|
      ensures expired == ExpiredKeys(cache, scan, config.ttl)
    {
      expired := [];
      for i := 0 to |cache|
        invariant expired == ExpiredKeys(cache[..i], scan[..i], config.ttl)
      {
        TakeOneMore(cache, i);
        TakeOneMore(scan, i);
        if Expired(cache[i], scan[i], config.ttl) {
          expired := expired + [cache[i].key];
        }
      }
      assert cache[..|cache|] == cache && scan[..|scan|] == scan;
    }

    method EvictExpired(scan: seq<real>)
      requires |scan| == |cache|
      modifies this`cache
      ensures cache == Evicted(old(cache), scan, config)
    {
      var expired := ScanExpired(scan);
      Delete(expired);
      assert cache == Unexpired(old(cache), scan, config.ttl);
      if |cache| >= config.maxCacheSize {
        var sorted := Sort(Age, cache);
        Delete(Keys(sorted[..Min(|sorted|, |cache| - config.maxCacheSize + 1)]));
      } else {
        WithoutNothing(cache);
      }
    }

    /** The in-memory path, under the lock.  The new cache and the answer are those of `Step`, and every
        signal is counted once as passed or deduplicated. */
    method ProcessSignal(ghost s: System, key: string, readings: Readings) returns (accepted: bool)
      requires s.cache == cache && Clocked(s, Signal(key, readings))
      modifies this
      ensures accepted == Accepts(s, Signal(key, readings), config)
      ensures cache == Step(s, Signal(key, readings), config).cache
      ensures stats == Stats(old(stats).total + 1, old(stats).deduplicated + (if accepted then 0 else 1),
                             old(stats).passed + (if accepted then 1 else 0))
      ensures old(stats).total == old(stats).passed + old(stats).deduplicated ==>
        stats.total == stats.passed + stats.deduplicated
    {
      stats := stats.(total := stats.total + 1);
      EvictExpired(readings.scan);
      var i := Find(cache, key);
      if i < |cache| {
        if !Expired(cache[i], readings.check, config.ttl) {
          stats := stats.(deduplicated := stats.deduplicated + 1);
          return false;
        }
      }
      cache := Put(cache, Entry(key, readings.stamp));
      stats := stats.(passed := stats.passed + 1);
      accepted := true;
    }
  }
}

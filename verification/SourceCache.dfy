/** The single-flight verified-source cache: what one step under its lock does to the tables. */
module SourceCache {
  import opened Orders

  /** A chain and a lower-cased address. */
  datatype Key = Key(chainId: int, address: string)

  datatype Source = Source(content: string, cacheSizeBytes: nat)

  datatype Hit = Hit(source: Source, expiresAt: real)

  datatype Miss = Miss(code: string, expiresAt: real)

  datatype Config = Config(ttl: real, maxEntries: nat, maxBytes: nat, negativeTtl: real)

  /** The bounds the constructor enforces. */
  ghost predicate ValidConfig(c: Config) {
    1.0 <= c.ttl <= 60.0 && c.maxEntries >= 1 && c.maxBytes >= 1 && 0.0 <= c.negativeTtl <= 2.0
  }

  datatype Tables = Tables(
    order: seq<Key>,
    entries: map<Key, Hit>,
    failureOrder: seq<Key>,
    failures: map<Key, Miss>,
    inflight: set<Key>)

  const EMPTY := Tables([], map[], [], map[], {})

  // ------------------------------------------------------------------ bytes

  function SumBytes(order: seq<Key>, entries: map<Key, Hit>): nat {
    if order == [] then 0
    else (if order[0] in entries then entries[order[0]].source.cacheSizeBytes else 0) + SumBytes(order[1..], entries)
  }

  lemma {:induction false} SumAgree(order: seq<Key>, a: map<Key, Hit>, b: map<Key, Hit>)
    requires forall k :: k in order ==> k in a && k in b && a[k] == b[k]
    ensures SumBytes(order, a) == SumBytes(order, b)
  {
    if order != [] { SumAgree(order[1..], a, b); }
  }

  lemma {:induction false} SumAppend(order: seq<Key>, k: Key, entries: map<Key, Hit>)
    requires k in entries
    ensures SumBytes(order + [k], entries) == SumBytes(order, entries) + entries[k].source.cacheSizeBytes
  {
    if order == [] {
      assert order + [k] == [k];
    } else {
      SumAppend(order[1..], k, entries);
      assert (order + [k])[1..] == order[1..] + [k];
    }
  }

  /** Removing one key takes exactly its bytes out of the sum. */
  lemma {:induction false} SumWithout(order: seq<Key>, entries: map<Key, Hit>, ks: set<Key>, k: Key)
    requires Distinct(order) && k in order && k in entries && k !in ks
    requires forall q :: q in order && q != k ==> q in ks
    ensures SumBytes(Keep(order, ks), entries) == SumBytes(order, entries) - entries[k].source.cacheSizeBytes
  {
    if order[0] == k {
      KeepAll(order[1..], ks);
      assert Keep(order, ks) == order[1..];
    } else {
      SumWithout(order[1..], entries, ks, k);
      assert Keep(order, ks)[1..] == Keep(order[1..], ks);
    }
  }

  // ------------------------------------------------------------------ dictionaries

  ghost predicate Lists<V>(order: seq<Key>, at: map<Key, V>) {
    Distinct(order) && forall k :: k in order <==> k in at
  }

  function DropKeys(t: Tables, gone: set<Key>): Tables {
    t.(order := Keep(t.order, t.entries.Keys - gone), entries := t.entries - gone)
  }

  function DropFailures(t: Tables, gone: set<Key>): Tables {
    t.(failureOrder := Keep(t.failureOrder, t.failures.Keys - gone), failures := t.failures - gone)
  }

  function Pop(t: Tables, k: Key): Tables { DropKeys(t, {k}) }

  function PopFailure(t: Tables, k: Key): Tables { DropFailures(t, {k}) }

  /** Popping one more key is dropping one more key. */
  lemma PopDropped<V>(order: seq<Key>, at: map<Key, V>, gone: set<Key>, k: Key)
    ensures Keep(Keep(order, at.Keys - gone), (at - gone).Keys - {k}) == Keep(order, at.Keys - (gone + {k}))
    ensures at - gone - {k} == at - (gone + {k})
  {
    hide Keep;
    KeepKeep(order, at.Keys - gone, (at - gone).Keys - {k});
    assert (at.Keys - gone) * ((at - gone).Keys - {k}) == at.Keys - (gone + {k});
  }

  lemma DropKeysPop(t: Tables, gone: set<Key>, k: Key)
    ensures Pop(DropKeys(t, gone), k) == DropKeys(t, gone + {k})
  {
    hide Keep;
    PopDropped(t.order, t.entries, gone, k);
  }

  lemma DropFailuresPop(t: Tables, gone: set<Key>, k: Key)
    ensures PopFailure(DropFailures(t, gone), k) == DropFailures(t, gone + {k})
  {
    hide Keep;
    PopDropped(t.failureOrder, t.failures, gone, k);
  }

  lemma DropNothing(t: Tables)
    requires Lists(t.order, t.entries) && Lists(t.failureOrder, t.failures)
    ensures DropKeys(t, {}) == t && DropFailures(t, {}) == t
  {
    KeepAll(t.order, t.entries.Keys);
    KeepAll(t.failureOrder, t.failures.Keys);
    assert t.entries - {} == t.entries && t.failures - {} == t.failures;
    assert t.entries.Keys - {} == t.entries.Keys && t.failures.Keys - {} == t.failures.Keys;
  }

  lemma PopKeeps(t: Tables, k: Key)
    requires Lists(t.order, t.entries) && k in t.entries
    ensures Lists(Pop(t, k).order, Pop(t, k).entries)
    ensures |Pop(t, k).order| == |t.order| - 1
    ensures SumBytes(Pop(t, k).order, Pop(t, k).entries) == SumBytes(t.order, t.entries) - t.entries[k].source.cacheSizeBytes
  {
    KeepOrder(t.order, t.entries.Keys - {k});
    KeepMissing(t.order, t.entries.Keys - {k}, k);
    SumWithout(t.order, t.entries, t.entries.Keys - {k}, k);
    SumAgree(Keep(t.order, t.entries.Keys - {k}), t.entries, t.entries - {k});
  }

  lemma PopFailureKeeps(t: Tables, k: Key)
    requires Lists(t.failureOrder, t.failures) && k in t.failures
    ensures Lists(PopFailure(t, k).failureOrder, PopFailure(t, k).failures)
    ensures |PopFailure(t, k).failureOrder| == |t.failureOrder| - 1
  {
    KeepOrder(t.failureOrder, t.failures.Keys - {k});
    KeepMissing(t.failureOrder, t.failures.Keys - {k}, k);
  }

  // ------------------------------------------------------------------ steps under the lock

  function Stale(t: Tables, now: real): set<Key> { set k | k in t.entries && t.entries[k].expiresAt <= now }

  function StaleFailures(t: Tables, now: real): set<Key> { set k | k in t.failures && t.failures[k].expiresAt <= now }

  /** Both tables without the entries whose deadline has passed. */
  function Expire(t: Tables, now: real): Tables {
    DropFailures(DropKeys(t, Stale(t, now)), StaleFailures(t, now))
  }

  datatype Verdict =
    | Cached(hit: Hit)
    | Failed(miss: Miss)
    | AtCapacity
    | Lead          // run the resolver
    | Wait          // someone else is running it

  function Touch(t: Tables, k: Key): Tables {
    t.(order := Keep(t.order, t.entries.Keys - {k}) + [k])
  }

  function TouchFailure(t: Tables, k: Key): Tables {
    t.(failureOrder := Keep(t.failureOrder, t.failures.Keys - {k}) + [k])
  }

  /** What unexpired tables answer for `k`. */
  function Answer(c: Config, live: Tables, k: Key): (Tables, Verdict) {
    if k in live.entries then (Touch(live, k), Cached(live.entries[k]))
    else if k in live.failures then (TouchFailure(live, k), Failed(live.failures[k]))
    else if k in live.inflight then (live, Wait)
    else if |live.inflight| >= c.maxEntries then (live, AtCapacity)
    else (live.(inflight := live.inflight + {k}), Lead)
  }

  /** One pass of the loop in `resolve`. */
  function Pass(c: Config, t: Tables, now: real, k: Key): (Tables, Verdict) {
    Answer(c, Expire(t, now), k)
  }

  predicate Crowded(c: Config, t: Tables, size: nat) {
    t.order != [] && (|t.order| >= c.maxEntries || SumBytes(t.order, t.entries) + size > c.maxBytes)
  }

  /** Give up the least recently used results until one more of `size` bytes fits. */
  function Evict(c: Config, t: Tables, size: nat): Tables
    requires Lists(t.order, t.entries)
    decreases |t.order|
  {
    if Crowded(c, t, size) then
      PopKeeps(t, t.order[0]);
      Evict(c, Pop(t, t.order[0]), size)
    else t
  }

  function StoreSuccess(c: Config, t: Tables, k: Key, source: Source, now: real): Tables
    requires Lists(t.order, t.entries)
  {
    if source.cacheSizeBytes > c.maxBytes then t
    else
      var without := if k in t.entries then Pop(t, k) else t;
      WithoutKeeps(t, k);
      var room := Evict(c, without, source.cacheSizeBytes);
      room.(order := room.order + [k], entries := room.entries[k := Hit(source, now + c.ttl)])
  }

  lemma WithoutKeeps(t: Tables, k: Key)
    requires Lists(t.order, t.entries)
    ensures var u := if k in t.entries then Pop(t, k) else t; Lists(u.order, u.entries) && k !in u.entries
  {
    if k in t.entries { PopKeeps(t, k); }
  }

  function FinishSuccess(c: Config, t: Tables, k: Key, source: Source, now: real): Tables
    requires Lists(t.order, t.entries)
  {
    var stored := StoreSuccess(c, t, k, source, now);
    stored.(inflight := stored.inflight - {k})
  }

  function TrimFailures(c: Config, t: Tables): Tables
    requires Lists(t.failureOrder, t.failures)
    decreases |t.failureOrder|
  {
    if |t.failureOrder| > c.maxEntries then
      PopFailureKeeps(t, t.failureOrder[0]);
      TrimFailures(c, PopFailure(t, t.failureOrder[0]))
    else t
  }

  function PutFailure(t: Tables, k: Key, miss: Miss): Tables {
    t.(failureOrder := Keep(t.failureOrder, t.failures.Keys - {k}) + [k], failures := t.failures[k := miss])
  }

  lemma PutFailureKeeps(t: Tables, k: Key, miss: Miss)
    requires Lists(t.failureOrder, t.failures)
    ensures Lists(PutFailure(t, k, miss).failureOrder, PutFailure(t, k, miss).failures)
  {
    KeepOrder(t.failureOrder, t.failures.Keys - {k});
  }

  function FinishFailure(c: Config, t: Tables, k: Key, code: string, now: real): Tables
    requires Lists(t.failureOrder, t.failures)
  {
    if c.negativeTtl == 0.0 then t.(inflight := t.inflight - {k})
    else
      var put := PutFailure(t, k, Miss(code, now + c.negativeTtl));
      PutFailureKeeps(t, k, Miss(code, now + c.negativeTtl));
      var trimmed := TrimFailures(c, put);
      trimmed.(inflight := trimmed.inflight - {k})
  }

  function FinishCrash(t: Tables, k: Key): Tables { t.(inflight := t.inflight - {k}) }

  // ------------------------------------------------------------------ invariant

  /** Dictionaries in order, every bound respected, and no key in two of the three tables. */
  ghost predicate Valid(c: Config, t: Tables) {
    && Lists(t.order, t.entries) && Lists(t.failureOrder, t.failures)
    && |t.order| <= c.maxEntries && SumBytes(t.order, t.entries) <= c.maxBytes
    && |t.failureOrder| <= c.maxEntries && |t.inflight| <= c.maxEntries
    && t.entries.Keys !! t.failures.Keys && t.entries.Keys !! t.inflight && t.failures.Keys !! t.inflight
  }

  lemma {:induction false} SumKeep(order: seq<Key>, entries: map<Key, Hit>, ks: set<Key>)
    ensures SumBytes(Keep(order, ks), entries) <= SumBytes(order, entries)
  {
    if order != [] {
      SumKeep(order[1..], entries, ks);
      assert order[0] in ks ==> Keep(order, ks)[1..] == Keep(order[1..], ks);
      assert order[0] !in ks ==> Keep(order, ks) == Keep(order[1..], ks);
    }
  }

  lemma ExpireKeeps(c: Config, t: Tables, now: real)
    requires Valid(c, t)
    ensures Valid(c, Expire(t, now))
  {
    KeepOrder(t.order, t.entries.Keys - Stale(t, now));
    KeepOrder(t.failureOrder, t.failures.Keys - StaleFailures(t, now));
    SumKeep(t.order, t.entries, t.entries.Keys - Stale(t, now));
    SumAgree(Keep(t.order, t.entries.Keys - Stale(t, now)), t.entries, t.entries - Stale(t, now));
  }

  lemma TouchKeeps(c: Config, t: Tables, k: Key)
    requires Valid(c, t) && k in t.entries
    ensures Valid(c, Touch(t, k))
    ensures SumBytes(Touch(t, k).order, t.entries) == SumBytes(t.order, t.entries)
  {
    KeepOrder(t.order, t.entries.Keys - {k});
    KeepMissing(t.order, t.entries.Keys - {k}, k);
    SumWithout(t.order, t.entries, t.entries.Keys - {k}, k);
    SumAppend(Keep(t.order, t.entries.Keys - {k}), k, t.entries);
  }

  lemma TouchFailureKeeps(c: Config, t: Tables, k: Key)
    requires Valid(c, t) && k in t.failures
    ensures Valid(c, TouchFailure(t, k))
  {
    KeepOrder(t.failureOrder, t.failures.Keys - {k});
    KeepMissing(t.failureOrder, t.failures.Keys - {k}, k);
  }

  lemma AnswerKeeps(c: Config, live: Tables, k: Key)
    requires Valid(c, live)
    ensures Valid(c, Answer(c, live, k).0)
  {
    hide Touch, TouchFailure, Lists, SumBytes;
    if k in live.entries {
      TouchKeeps(c, live, k);
    } else if k in live.failures {
      TouchFailureKeeps(c, live, k);
    }
  }

  lemma PassKeeps(c: Config, t: Tables, now: real, k: Key)
    requires Valid(c, t)
    ensures Valid(c, Pass(c, t, now, k).0)
  {
    hide Valid, Answer;
    ExpireKeeps(c, t, now);
    AnswerKeeps(c, Expire(t, now), k);
  }

  /** Eviction gives up a prefix of the recency order, and ends with room for one more. */
  lemma {:induction false} EvictFits(c: Config, t: Tables, size: nat)
    requires Lists(t.order, t.entries) && size <= c.maxBytes && c.maxEntries >= 1
    requires |t.order| <= c.maxEntries && SumBytes(t.order, t.entries) <= c.maxBytes
    ensures var u := Evict(c, t, size);
            && Lists(u.order, u.entries)
            && |u.order| < c.maxEntries && SumBytes(u.order, u.entries) + size <= c.maxBytes
            && (exists n :: 0 <= n <= |t.order| && u.order == t.order[n..])
            && (forall k :: k in u.entries ==> k in t.entries && u.entries[k] == t.entries[k])
            && u == t.(order := u.order, entries := u.entries)
    decreases |t.order|
  {
    assert SumBytes([], t.entries) == 0;
    hide Lists, SumBytes, Pop;
    if Crowded(c, t, size) {
      PopHead(t);
      var v := Pop(t, t.order[0]);
      EvictFits(c, v, size);
      var u := Evict(c, v, size);
      var n :| 0 <= n <= |v.order| && u.order == v.order[n..];
      assert u.order == t.order[n + 1..];
    } else {
      assert t.order == t.order[0..];
    }
  }

  lemma PopHead(t: Tables)
    requires Lists(t.order, t.entries) && t.order != []
    ensures var v := Pop(t, t.order[0]);
            && Lists(v.order, v.entries) && v.order == t.order[1..]
            && SumBytes(v.order, v.entries) <= SumBytes(t.order, t.entries)
            && (forall k :: k in v.entries ==> k in t.entries && v.entries[k] == t.entries[k])
            && v == t.(order := v.order, entries := v.entries)
  {
    PopKeeps(t, t.order[0]);
    HeadPopped(t.order, t.entries.Keys);
  }

  lemma PopOldestFailure(t: Tables)
    requires Lists(t.failureOrder, t.failures) && t.failureOrder != []
    ensures var v := PopFailure(t, t.failureOrder[0]);
            Lists(v.failureOrder, v.failures) && v.failureOrder == t.failureOrder[1..]
  {
    PopFailureKeeps(t, t.failureOrder[0]);
    HeadPopped(t.failureOrder, t.failures.Keys);
  }

  lemma HeadPopped(order: seq<Key>, ks: set<Key>)
    requires Distinct(order) && order != [] && forall k :: k in order ==> k in ks
    ensures Keep(order, ks - {order[0]}) == order[1..]
  {
    DistinctHead(order);
    KeepTail(order, ks - {order[0]});
  }

  lemma StoreKeeps(c: Config, t: Tables, k: Key, source: Source, now: real)
    requires ValidConfig(c) && Valid(c, t) && k !in t.failures && k !in t.entries
    ensures var u := StoreSuccess(c, t, k, source, now);
            && Lists(u.order, u.entries) && |u.order| <= c.maxEntries && SumBytes(u.order, u.entries) <= c.maxBytes
            && u == t.(order := u.order, entries := u.entries)
            && (forall q :: q in u.entries ==>
                  || (q == k && u.entries[q] == Hit(source, now + c.ttl))
                  || (q in t.entries && u.entries[q] == t.entries[q]))
  {
    hide Evict, Keep, Lists, SumBytes;
    if source.cacheSizeBytes <= c.maxBytes {
      EvictFits(c, t, source.cacheSizeBytes);
      AddFits(c, Evict(c, t, source.cacheSizeBytes), k, Hit(source, now + c.ttl));
    }
  }

  /** With the first `m` results gone, one more of `size` bytes does not fit yet. */
  ghost predicate Tight(c: Config, t: Tables, size: nat, m: nat)
    requires m <= |t.order|
  {
    |t.order| - m >= c.maxEntries || SumBytes(t.order[m..], t.entries) + size > c.maxBytes
  }

  /** Eviction drops the `n` least recently used results, and no fewer would have been enough. */
  lemma {:induction false} EvictsShortest(c: Config, t: Tables, size: nat) returns (n: nat)
    requires Lists(t.order, t.entries)
    ensures n <= |t.order| && Evict(c, t, size).order == t.order[n..]
    ensures forall m :: 0 <= m < n ==> Tight(c, t, size, m)
    decreases |t.order|
  {
    hide Lists, SumBytes, Pop, Tight;
    assert t.order[0..] == t.order;
    if Crowded(c, t, size) {
      PopHead(t);
      var v := Pop(t, t.order[0]);
      var k := EvictsShortest(c, v, size);
      n := k + 1;
      assert v.order[k..] == t.order[n..];
      forall m | 0 <= m < n ensures Tight(c, t, size, m) {
        if m > 0 { TightAfterPop(c, t, size, m); } else { TightNow(c, t, size); }
      }
    } else {
      n := 0;
    }
  }

  lemma TightNow(c: Config, t: Tables, size: nat)
    requires Crowded(c, t, size)
    ensures Tight(c, t, size, 0)
  {
    assert t.order[0..] == t.order;
  }

  lemma TightAfterPop(c: Config, t: Tables, size: nat, m: nat)
    requires Lists(t.order, t.entries) && 0 < m <= |t.order|
    requires Pop(t, t.order[0]).order == t.order[1..] && Tight(c, Pop(t, t.order[0]), size, m - 1)
    ensures Tight(c, t, size, m)
  {
    var v := Pop(t, t.order[0]);
    assert v.order[m - 1..] == t.order[m..];
    forall k | k in t.order[m..] ensures k in v.entries && v.entries[k] == t.entries[k] {
      assert k != t.order[0];
    }
    SumAgree(t.order[m..], v.entries, t.entries);
  }

  /** Too many failures: the oldest go, and only as many as exceed the limit. */
  lemma {:induction false} TrimsOldest(c: Config, t: Tables)
    requires Lists(t.failureOrder, t.failures)
    ensures var over := if |t.failureOrder| > c.maxEntries then |t.failureOrder| - c.maxEntries else 0;
            TrimFailures(c, t).failureOrder == t.failureOrder[over..]
    decreases |t.failureOrder|
  {
    hide Lists, PopFailure;
    if |t.failureOrder| > c.maxEntries {
      PopOldestFailure(t);
      TrimsOldest(c, PopFailure(t, t.failureOrder[0]));
    }
  }

  lemma AddFits(c: Config, room: Tables, k: Key, hit: Hit)
    requires Lists(room.order, room.entries) && k !in room.entries && |room.order| < c.maxEntries
    requires SumBytes(room.order, room.entries) + hit.source.cacheSizeBytes <= c.maxBytes
    ensures var order, entries := room.order + [k], room.entries[k := hit];
            Lists(order, entries) && |order| <= c.maxEntries && SumBytes(order, entries) <= c.maxBytes
  {
    SumAgree(room.order, room.entries, room.entries[k := hit]);
    SumAppend(room.order, k, room.entries[k := hit]);
  }

  lemma FinishSuccessKeeps(c: Config, t: Tables, k: Key, source: Source, now: real)
    requires ValidConfig(c) && Valid(c, t) && k in t.inflight
    ensures Valid(c, FinishSuccess(c, t, k, source, now))
  {
    StoreKeeps(c, t, k, source, now);
  }

  lemma {:induction false} TrimFits(c: Config, t: Tables)
    requires Lists(t.failureOrder, t.failures)
    ensures var u := TrimFailures(c, t);
            && Lists(u.failureOrder, u.failures) && |u.failureOrder| <= c.maxEntries
            && u.failures.Keys <= t.failures.Keys
            && (forall q :: q in u.failures ==> u.failures[q] == t.failures[q])
            && u == t.(failureOrder := u.failureOrder, failures := u.failures)
    decreases |t.failureOrder|
  {
    if |t.failureOrder| > c.maxEntries {
      PopFailureKeeps(t, t.failureOrder[0]);
      TrimFits(c, PopFailure(t, t.failureOrder[0]));
    }
  }

  lemma FinishFailureKeeps(c: Config, t: Tables, k: Key, code: string, now: real)
    requires ValidConfig(c) && Valid(c, t) && k in t.inflight
    ensures Valid(c, FinishFailure(c, t, k, code, now))
    ensures var u := FinishFailure(c, t, k, code, now);
            forall q :: q in u.failures ==>
              (q == k && u.failures[q] == Miss(code, now + c.negativeTtl)) || (q in t.failures && u.failures[q] == t.failures[q])
  {
    hide Keep, SumBytes, Distinct;
    if c.negativeTtl != 0.0 {
      var miss := Miss(code, now + c.negativeTtl);
      PutFailureKeeps(t, k, miss);
      TrimFits(c, PutFailure(t, k, miss));
    }
  }
}

/** The cache as the source runs it: tables and a byte counter changed in place while the lock
is held.  Each method is proved against the table function of the same name in `SourceCache`. */
module VerifiedSourceCaches {
  import opened Orders
  import opened SourceCache

  class VerifiedSourceCache {
    const config: Config
    var order: seq<Key>
    var entries: map<Key, Hit>
    var failureOrder: seq<Key>
    var failures: map<Key, Miss>
    var inflight: set<Key>
    var cachedBytes: int

    ghost function Contents(): Tables
      reads this
    {
      Tables(order, entries, failureOrder, failures, inflight)
    }

    /** Both dictionaries are in order and the counter is the exact sum of the cached sizes. */
    ghost predicate Counted()
      reads this
    {
      && Lists(order, entries) && Lists(failureOrder, failures)
      && cachedBytes == SumBytes(order, entries)
    }

    ghost predicate Valid()
      reads this
    {
      ValidConfig(config) && SourceCache.Valid(config, Contents()) && cachedBytes == SumBytes(order, entries)
    }

    constructor (c: Config)
      requires ValidConfig(c)
      ensures Valid() && config == c && Contents() == EMPTY
    {
      config := c;
      order, entries := [], map[];
      failureOrder, failures := [], map[];
      inflight := {};
      cachedBytes := 0;
    }

    method Remove(k: Key)
      requires Counted() && k in entries
      modifies `order, `entries, `cachedBytes
      ensures Counted() && Contents() == Pop(old(Contents()), k)
    {
      PopKeeps(Contents(), k);
      cachedBytes := cachedBytes - entries[k].source.cacheSizeBytes;
      order, entries := Keep(order, entries.Keys - {k}), entries - {k};
    }

    method RemoveFailure(k: Key)
      requires Counted() && k in failures
      modifies `failureOrder, `failures
      ensures Counted() && Contents() == PopFailure(old(Contents()), k)
    {
      PopFailureKeeps(Contents(), k);
      failureOrder, failures := Keep(failureOrder, failures.Keys - {k}), failures - {k};
    }

    method ExpireLocked(now: real)
      requires Counted()
      modifies `order, `entries, `cachedBytes, `failureOrder, `failures
      ensures Counted() && Contents() == Expire(old(Contents()), now)
    {
      ExpireEntries(now);
      ExpireFailures(now);
    }

    method ExpireEntries(now: real)
      requires Counted()
      modifies `order, `entries, `cachedBytes
      ensures Counted() && Contents() == DropKeys(old(Contents()), Stale(old(Contents()), now))
    {
      hide Keep, SumBytes, Pop;
      var items := order;
      ghost var t := Contents();
      ghost var gone: set<Key> := {};
      DropNothing(t);
      for i := 0 to |items|
        invariant Counted() && Contents() == DropKeys(t, gone)
        invariant gone == set k | k in items[..i] && k in Stale(t, now)
      {
        var k := items[i];
        assert items[..i + 1] == items[..i] + [k];
        assert k in items && k !in items[..i];
        if entries[k].expiresAt <= now {
          DropKeysPop(t, gone, k);
          Remove(k);
          gone := gone + {k};
        }
      }
      assert items[..|items|] == items;
      assert gone == Stale(t, now);
    }

    method ExpireFailures(now: real)
      requires Counted()
      modifies `failureOrder, `failures
      ensures Counted() && Contents() == DropFailures(old(Contents()), StaleFailures(old(Contents()), now))
    {
      hide Keep, SumBytes, PopFailure;
      var items := failureOrder;
      ghost var t := Contents();
      ghost var gone: set<Key> := {};
      DropNothing(t);
      for i := 0 to |items|
        invariant Counted() && Contents() == DropFailures(t, gone)
        invariant gone == set k | k in items[..i] && k in StaleFailures(t, now)
      {
        var k := items[i];
        assert items[..i + 1] == items[..i] + [k];
        assert k in items && k !in items[..i];
        if failures[k].expiresAt <= now {
          DropFailuresPop(t, gone, k);
          RemoveFailure(k);
          gone := gone + {k};
        }
      }
      assert items[..|items|] == items;
      assert gone == StaleFailures(t, now);
    }

    /** One pass of the loop in `resolve`, up to its return, its wait, or its claim to lead. */
    method Probe(now: real, k: Key) returns (v: Verdict)
      requires Valid()
      modifies this
      ensures Valid()
      ensures (Contents(), v) == Pass(config, old(Contents()), now, k)
    {
      hide Keep, SumBytes, Distinct, DropKeys, DropFailures;
      PassKeeps(config, Contents(), now, k);
      ExpireKeeps(config, Contents(), now);
      ExpireLocked(now);
      if k in entries {
        TouchKeeps(config, Contents(), k);
        order := Keep(order, entries.Keys - {k}) + [k];
        return Cached(entries[k]);
      }
      if k in failures {
        failureOrder := Keep(failureOrder, failures.Keys - {k}) + [k];
        return Failed(failures[k]);
      }
      if k in inflight {
        return Wait;
      }
      if |inflight| >= config.maxEntries {
        return AtCapacity;
      }
      inflight := inflight + {k};
      return Lead;
    }

    method StoreSuccessLocked(k: Key, source: Source, now: real)
      requires Counted()
      modifies `order, `entries, `cachedBytes
      ensures Counted() && Contents() == StoreSuccess(config, old(Contents()), k, source, now)
    {
      hide Keep, SumBytes, Pop, Distinct;
      var size := source.cacheSizeBytes;
      if size > config.maxBytes {
        return;
      }
      WithoutKeeps(Contents(), k);
      if k in entries {
        Remove(k);
      }
      ghost var t := Contents();
      while order != [] && (|order| >= config.maxEntries || cachedBytes + size > config.maxBytes)
        invariant Counted() && k !in entries
        invariant Evict(config, t, size) == Evict(config, Contents(), size)
        decreases |order|
      {
        HeadListed(Contents());
        PopFewer(Contents(), order[0]);
        Remove(order[0]);
      }
      Append(k, Hit(source, now + config.ttl));
    }

    method Append(k: Key, hit: Hit)
      requires Counted() && k !in entries
      modifies `order, `entries, `cachedBytes
      ensures Counted() && order == old(order) + [k] && entries == old(entries)[k := hit]
    {
      SumAgree(order, entries, entries[k := hit]);
      SumAppend(order, k, entries[k := hit]);
      order, entries := order + [k], entries[k := hit];
      cachedBytes := cachedBytes + hit.source.cacheSizeBytes;
    }

    /** The resolver returned: publish and let every waiter look again. */
    method Succeed(k: Key, source: Source, now: real)
      requires Valid() && k in inflight
      modifies this
      ensures Valid() && Contents() == FinishSuccess(config, old(Contents()), k, source, now)
    {
      FinishSuccessKeeps(config, Contents(), k, source, now);
      StoreSuccessLocked(k, source, now);
      inflight := inflight - {k};
    }

    method TrimFailureTable()
      requires Counted()
      modifies `failureOrder, `failures
      ensures Counted() && Contents() == TrimFailures(config, old(Contents()))
    {
      hide Keep, SumBytes, Distinct, PopFailure;
      ghost var t := Contents();
      while |failureOrder| > config.maxEntries
        invariant Counted()
        invariant TrimFailures(config, t) == TrimFailures(config, Contents())
        decreases |failureOrder|
      {
        FailureListed(Contents());
        RemoveFailure(failureOrder[0]);
      }
    }

    /** The resolver raised a source error: remember it briefly. */
    method Fail(k: Key, code: string, now: real)
      requires Valid() && k in inflight
      modifies this
      ensures Valid() && Contents() == FinishFailure(config, old(Contents()), k, code, now)
    {
      hide Keep, SumBytes, Distinct, TrimFailures;
      FinishFailureKeeps(config, Contents(), k, code, now);
      if config.negativeTtl != 0.0 {
        var miss := Miss(code, now + config.negativeTtl);
        PutFailureKeeps(Contents(), k, miss);
        TrimFits(config, PutFailure(Contents(), k, miss));
        failureOrder, failures := Keep(failureOrder, failures.Keys - {k}) + [k], failures[k := miss];
        TrimFailureTable();
      }
      inflight := inflight - {k};
    }

    /** The resolver raised any other `Exception`: remember nothing.  What a resolver raises outside
        that class reaches no code of the cache; `SingleFlight` says what it leaves behind. */
    method Crash(k: Key)
      requires Valid()
      modifies `inflight
      ensures Valid() && Contents() == FinishCrash(old(Contents()), k)
    {
      CrashKeeps(config, Contents(), k);
      inflight := inflight - {k};
    }
  }

  lemma PopFewer(t: Tables, k: Key)
    ensures Pop(t, k).entries.Keys <= t.entries.Keys
  {
  }

  lemma FailureListed(t: Tables)
    requires Lists(t.failureOrder, t.failures) && t.failureOrder != []
    ensures t.failureOrder[0] in t.failures && |PopFailure(t, t.failureOrder[0]).failureOrder| < |t.failureOrder|
  {
    PopFailureKeeps(t, t.failureOrder[0]);
  }

  lemma HeadListed(t: Tables)
    requires Lists(t.order, t.entries) && t.order != []
    ensures t.order[0] in t.entries && |Pop(t, t.order[0]).order| < |t.order|
  {
    PopKeeps(t, t.order[0]);
  }

  lemma CrashKeeps(c: Config, t: Tables, k: Key)
    requires SourceCache.Valid(c, t)
    ensures SourceCache.Valid(c, FinishCrash(t, k))
  {
    Without(t.inflight, k);
  }
}

/** What one ledger operation keeps, and what its defensive branches can never see. */
module LedgerLaws {
  import opened Basics
  import opened Ledger
  import opened Orders

  // ------------------------------------------------------------------ byte-pressure eviction

  /** The completed keys, least recently used first. */
  ghost function Completed(t: Table): seq<Key> {
    Keep(t.order, CompleteKeys(t))
  }

  ghost function CompleteKeys(t: Table): set<Key> {
    set k | k in t.at && t.at[k].state.Complete?
  }

  lemma DropDrop(t: Table, a: set<Key>, b: set<Key>)
    requires Ordered(t)
    ensures Drop(Drop(t, a), b) == Drop(t, a + b)
  {
    var u := Drop(t, a);
    assert u.at - b == t.at - (a + b);
    KeepKeep(t.order, t.at.Keys - a, u.at.Keys - b);
    KeepSame(t.order, (t.at.Keys - a) * (u.at.Keys - b), t.at.Keys - (a + b));
  }

  lemma DropNothing(t: Table, gone: set<Key>)
    requires Ordered(t) && gone !! t.at.Keys
    ensures Drop(t, gone) == t
  {
    KeepAll(t.order, t.at.Keys - gone);
    assert t.at - gone == t.at;
  }

  lemma {:induction false} FirstIsHead(order: seq<Key>, at: map<Key, Entry>, ks: set<Key>)
    requires forall k :: k in order ==> (k in ks <==> k in at && at[k].state.Complete?)
    ensures FirstComplete(order, at).None? <==> Keep(order, ks) == []
    ensures FirstComplete(order, at).Some? ==> FirstComplete(order, at).value == Keep(order, ks)[0]
  {
    if order != [] {
      FirstIsHead(order[1..], at, ks);
    }
  }

  lemma OldestIsHead(t: Table)
    ensures OldestComplete(t).None? <==> Completed(t) == []
    ensures OldestComplete(t).Some? ==> OldestComplete(t).value == Completed(t)[0]
  {
    FirstIsHead(t.order, t.at, CompleteKeys(t));
  }

  lemma CompletedAfterDrop(t: Table)
    requires Ordered(t) && Completed(t) != []
    ensures Completed(Drop(t, {Completed(t)[0]})) == Completed(t)[1..]
  {
    var ks := CompleteKeys(t);
    var victim := Completed(t)[0];
    var u := Drop(t, {victim});
    assert CompleteKeys(u) == ks - {victim};
    calc {
      Completed(u);
      Keep(Keep(t.order, t.at.Keys - {victim}), ks - {victim});
      { KeepKeep(t.order, t.at.Keys - {victim}, ks - {victim});
        assert (t.at.Keys - {victim}) * (ks - {victim}) == ks * (ks - {victim}); }
      Keep(t.order, ks * (ks - {victim}));
      { KeepKeep(t.order, ks, ks - {victim}); }
      Keep(Completed(t), ks - {victim});
      { KeepOrder(t.order, ks); DistinctHead(Completed(t));
        KeepTail(Completed(t), ks - {victim}); }
      Completed(t)[1..];
    }
  }

  /** Giving up the `n` oldest completed entries is dropping a prefix of the recency order. */
  lemma {:induction false} DropOldestIsPrefix(t: Table, n: nat)
    requires Ordered(t) && n <= |Completed(t)|
    ensures DropOldest(t, n) == Drop(t, Elements(Completed(t)[..n]))
    decreases n
  {
    hide Keep, CompleteKeys, FirstComplete;
    OldestIsHead(t);
    if n == 0 {
      DropNothing(t, Elements(Completed(t)[..0]));
    } else {
      var victim := Completed(t)[0];
      var u := Drop(t, {victim});
      DropOrdered(t, {victim});
      CompletedAfterDrop(t);
      DropOldestIsPrefix(u, n - 1);
      DropDrop(t, {victim}, Elements(Completed(u)[..n - 1]));
      ElementsCons(Completed(t), n);
    }
  }

  lemma {:induction false} NothingCached(order: seq<Key>, at: map<Key, Entry>)
    requires forall k :: k in order && k in at ==> at[k].response.None?
    ensures SumCached(order, at) == 0
  {
    if order != [] {
      NothingCached(order[1..], at);
    }
  }

  /** The byte loop gives up the shortest sufficient prefix of the recency order: `need`
      fits afterwards, and would not fit after any smaller number of evictions. */
  lemma {:induction false} EvictsShortestPrefix(c: Config, t: Table, need: nat)
    requires ValidTable(c, t) && need <= c.maxTotalBytes
    ensures var n := EvictionCount(t, need, c.maxTotalBytes);
            && n <= |Completed(t)|
            && CachedBytes(DropOldest(t, n)) + need <= c.maxTotalBytes
            && forall m :: 0 <= m < n ==> CachedBytes(DropOldest(t, m)) + need > c.maxTotalBytes
    decreases |t.order|
  {
    hide Keep, CompleteKeys, FirstComplete, ValidTable, CachedBytes, Completed;
    OldestIsHead(t);
    if OldestComplete(t).None? {
      NoVictimMeansRoom(c, t, need);
    } else if CachedBytes(t) + need > c.maxTotalBytes {
      var victim := OldestComplete(t).value;
      var u := Drop(t, {victim});
      DropShrinks(t, victim);
      DropValid(c, t, {victim});
      assert Ordered(t) by { TableOrdered(c, t); }
      CompletedAfterDrop(t);
      EvictsShortestPrefix(c, u, need);
      var n := EvictionCount(t, need, c.maxTotalBytes);
      forall m | 0 <= m < n ensures CachedBytes(DropOldest(t, m)) + need > c.maxTotalBytes {
        if m > 0 {
          assert DropOldest(t, m) == DropOldest(u, m - 1);
        }
      }
    }
  }

  lemma TableOrdered(c: Config, t: Table)
    requires ValidTable(c, t)
    ensures Ordered(t)
  {
  }

  lemma EvictionUnfolds(t: Table, need: nat, limit: nat)
    ensures CachedBytes(t) + need <= limit ==> DropOldest(t, EvictionCount(t, need, limit)) == t
    ensures CachedBytes(t) + need > limit && OldestComplete(t).Some? ==>
              var u := Drop(t, {OldestComplete(t).value});
              DropOldest(t, EvictionCount(t, need, limit)) == DropOldest(u, EvictionCount(u, need, limit))
  {
  }

  lemma NoVictimMeansRoom(c: Config, t: Table, need: nat)
    requires ValidTable(c, t) && need <= c.maxTotalBytes && OldestComplete(t).None?
    ensures CachedBytes(t) + need <= c.maxTotalBytes
  {
    forall k | k in t.order && k in t.at ensures t.at[k].response.None? {
      assert ValidEntry(c, t.at[k]);
    }
    NothingCached(t.order, t.at);
  }

  /** Byte pressure never touches a live reservation. */
  lemma DropOldestSpares(t: Table, n: nat)
    requires Ordered(t) && n <= |Completed(t)|
    ensures forall k :: k in t.at && t.at[k].state.Reserved? ==> k in DropOldest(t, n).at && DropOldest(t, n).at[k] == t.at[k]
    ensures forall k :: k in DropOldest(t, n).at ==> k in t.at && DropOldest(t, n).at[k] == t.at[k]
  {
    DropOldestIsPrefix(t, n);
    forall k | k in Completed(t)[..n] ensures k in t.at && t.at[k].state.Complete? {
      assert k in Completed(t);
    }
  }

  // ------------------------------------------------------------------ every operation keeps the invariant

  lemma LiveValid(c: Config, t: Table, now: real)
    requires ValidTable(c, t)
    ensures ValidTable(c, Live(t, now))
  {
    DropValid(c, t, Expired(t, now));
  }

  /** Writing a well-formed entry last keeps the invariant when the new totals fit. */
  lemma PutLastValid(c: Config, t: Table, k: Key, e: Entry)
    requires ValidTable(c, t) && ValidEntry(c, e)
    requires k in t.at || |t.order| < c.maxEntries
    requires CachedBytes(t) - CachedOf(t.at, k) + CachedOf(map[k := e], k) <= c.maxTotalBytes
    requires !c.evict ==> CachedBytes(t) - CachedOf(t.at, k) + CachedOf(map[k := e], k)
                          + ReservedBytes(t) - ReservedOf(t.at, k) + e.reservedBytes <= c.maxTotalBytes
    ensures ValidTable(c, PutLast(t, k, e))
  {
    PutLastOrdered(t, k, e);
    PutLastSums(t, k, e);
  }

  lemma RoomValid(c: Config, t: Table)
    requires ValidConfig(c) && ValidTable(c, t) && MakeRoom(c, t).Some?
    ensures ValidTable(c, MakeRoom(c, t).value)
    ensures |MakeRoom(c, t).value.order| < c.maxEntries
    ensures MakeRoom(c, t).value.at.Keys <= t.at.Keys
  {
    if |t.order| >= c.maxEntries {
      DropValid(c, t, {OldestComplete(t).value});
      DropShrinks(t, OldestComplete(t).value);
    }
  }

  lemma AnswerKeeps(c: Config, live: Table, now: real, k: Key, fingerprint: string)
    requires ValidTable(c, live) && k in live.at
    ensures ValidTable(c, Answer(live, now, k, fingerprint).0)
    ensures !Answer(live, now, k, fingerprint).1.InvalidReservation?
  {
    assert ValidEntry(c, live.at[k]);
    PutLastValid(c, live, k, live.at[k]);
  }

  lemma AdmitKeeps(c: Config, live: Table, now: real, k: Key, fingerprint: string, token: string)
    requires ValidConfig(c) && ValidTable(c, live) && k !in live.at
    ensures ValidTable(c, Admit(c, live, now, k, fingerprint, token).0)
    ensures !Admit(c, live, now, k, fingerprint, token).1.InvalidReservation?
  {
    if MakeRoom(c, live).Some? {
      RoomValid(c, live);
      var room := MakeRoom(c, live).value;
      if c.evict || CachedBytes(room) + ReservedBytes(room) + c.maxResponseBytes <= c.maxTotalBytes {
        PutLastValid(c, room, k, ReservedEntry(c, now, fingerprint, token));
      }
    }
  }

  /** Whatever a reserve answers, the invariant holds afterwards; the branch for a completed
      entry without a response is unreachable. */
  lemma ReserveKeeps(c: Config, t: Table, now: real, k: Key, fingerprint: string, token: string)
    requires ValidConfig(c) && ValidTable(c, t)
    ensures ValidTable(c, Reserve(c, t, now, k, fingerprint, token).0)
    ensures !Reserve(c, t, now, k, fingerprint, token).1.InvalidReservation?
  {
    LiveValid(c, t, now);
    if k in Live(t, now).at {
      AnswerKeeps(c, Live(t, now), now, k, fingerprint);
    } else {
      AdmitKeeps(c, Live(t, now), now, k, fingerprint, token);
    }
  }

  lemma ReservedHolds(c: Config, t: Table, k: Key)
    requires ValidTable(c, t) && k in t.at && t.at[k].state.Reserved?
    ensures t.at[k].response.None? && t.at[k].reservedBytes == if c.evict then 0 else c.maxResponseBytes
  {
    assert ValidEntry(c, t.at[k]);
  }

  lemma EvictedValid(c: Config, t: Table, k: Key, need: nat)
    requires ValidTable(c, t) && need <= c.maxTotalBytes
    requires k in t.at && t.at[k].state.Reserved?
    ensures var room := DropOldest(t, EvictionCount(t, need, c.maxTotalBytes));
            && ValidTable(c, room)
            && k in room.at && room.at[k] == t.at[k]
            && CachedBytes(room) + need <= c.maxTotalBytes
  {
    var n := EvictionCount(t, need, c.maxTotalBytes);
    EvictsShortestPrefix(c, t, need);
    DropOldestSpares(t, n);
    DropOldestIsPrefix(t, n);
    DropValid(c, t, Elements(Completed(t)[..n]));
  }

  lemma PublishKeeps(c: Config, live: Table, now: real, k: Key, response: Response)
    requires ValidConfig(c) && ValidTable(c, live) && Size(response) <= c.maxResponseBytes
    requires k in live.at && live.at[k].state.Reserved?
    ensures ValidTable(c, Publish(c, live, now, k, response).0)
    ensures Publish(c, live, now, k, response).1.Committed?
  {
    var e := CompletedEntry(c, now, live.at[k], response);
    assert ValidEntry(c, live.at[k]);
    if c.evict {
      EvictedValid(c, live, k, Size(response));
      PutLastValid(c, DropOldest(live, EvictionCount(live, Size(response), c.maxTotalBytes)), k, e);
    } else {
      MemberSums(live, k);
      PutLastValid(c, live, k, e);
    }
  }

  /** Whatever a commit answers, the invariant holds afterwards; it never fails for want of
      capacity, because the room was set aside at admission or can be made now. */
  lemma CommitKeeps(c: Config, t: Table, now: real, r: Reservation, response: Response)
    requires ValidConfig(c) && ValidTable(c, t)
    ensures ValidTable(c, Commit(c, t, now, r, response).0)
    ensures !Commit(c, t, now, r, response).1.Capacity?
  {
    LiveValid(c, t, now);
    if Size(response) <= c.maxResponseBytes && Owns(Live(t, now), r) {
      PublishKeeps(c, Live(t, now), now, r.key, response);
    }
  }

  /** One key's bytes are part of the sums. */
  lemma MemberSums(t: Table, k: Key)
    requires Ordered(t) && k in t.at
    ensures CachedOf(t.at, k) <= CachedBytes(t) && ReservedOf(t.at, k) <= ReservedBytes(t)
  {
    DropOneSums(t, k);
  }

  lemma AbortKeeps(c: Config, t: Table, now: real, r: Reservation)
    requires ValidTable(c, t)
    ensures ValidTable(c, Abort(t, now, r).0)
  {
    LiveValid(c, t, now);
    if Owns(Live(t, now), r) {
      DropValid(c, Live(t, now), {r.key});
    }
  }
}

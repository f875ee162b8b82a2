/** The ledger as the source runs it: an ordered dictionary and two byte counters, changed in
place.  Every method is proved against the table function of the same name in `Ledger`; the
exceptions a defensive branch would raise are results that are proved never to be returned. */
module IdempotencyStores {
  import opened Basics
  import opened Ledger
  import opened LedgerLaws
  import opened Orders

  /** The decisions of `Admit`, one by one. */
  lemma AdmitSteps(c: Config, t: Table, now: real, k: Key, fingerprint: string, token: string)
    requires k !in t.at
    ensures var r := Admit(c, t, now, k, fingerprint, token);
            match MakeRoom(c, t)
            case None => r == (t, Capacity(RetryAfter(c, t, now)))
            case Some(room) =>
              && k !in room.at
              && r == if !c.evict && CachedBytes(room) + ReservedBytes(room) + c.maxResponseBytes > c.maxTotalBytes then
                        (room, Capacity(RetryAfter(c, room, now)))
                      else
                        (PutLast(room, k, ReservedEntry(c, now, fingerprint, token)),
                         Granted(Reservation(k, fingerprint, token, now + c.reservationTtl)))
  {
  }

  lemma NewAmounts(at: map<Key, Entry>, k: Key, e: Entry)
    requires k !in at && e.response.None?
    ensures CachedOf(map[k := e], k) == CachedOf(at, k) == ReservedOf(at, k) == 0
  {
  }

  lemma DropNext(t: Table, gone: seq<Key>, i: nat)
    requires Ordered(t) && Distinct(gone) && i < |gone| && gone[i] in t.at
    ensures gone[i] in Drop(t, Elements(gone[..i])).at
    ensures Drop(Drop(t, Elements(gone[..i])), {gone[i]}) == Drop(t, Elements(gone[..i + 1]))
  {
    hide Keep;
    DropDrop(t, Elements(gone[..i]), {gone[i]});
    assert Elements(gone[..i + 1]) == Elements(gone[..i]) + {gone[i]};
  }

  lemma DropAllExpired(t: Table, now: real, gone: seq<Key>)
    requires Ordered(t) && gone == Keep(t.order, Expired(t, now))
    ensures forall k :: k in gone ==> k in t.at
    ensures Drop(t, Elements(gone[..|gone|])) == Live(t, now)
  {
    assert gone[..|gone|] == gone;
    assert Elements(gone) == Expired(t, now);
  }

  class IdempotencyStore {
    const config: Config
    var order: seq<Key>
    var at: map<Key, Entry>
    var cachedBytes: int
    var reservedBytes: int

    function Contents(): Table
      reads this
    {
      Table(order, at)
    }

    ghost predicate Valid()
      reads this
    {
      && ValidConfig(config)
      && ValidTable(config, Contents())
      && cachedBytes == CachedBytes(Contents())
      && reservedBytes == ReservedBytes(Contents())
    }

    constructor (c: Config)
      requires ValidConfig(c)
      ensures Valid() && config == c && Contents() == EMPTY
    {
      config := c;
      order, at := [], map[];
      cachedBytes, reservedBytes := 0, 0;
    }

    /** `underflow` is the RuntimeError of the accounting checks. */
    method Remove(k: Key) returns (underflow: bool)
      requires Valid() && k in at
      modifies this
      ensures Valid() && !underflow
      ensures Contents() == Drop(old(Contents()), {k})
    {
      DropOneSums(Contents(), k);
      DropValid(config, Contents(), {k});
      var e := at[k];
      order := Keep(order, at.Keys - {k});
      at := at - {k};
      reservedBytes := reservedBytes - e.reservedBytes;
      if reservedBytes < 0 {
        return true;
      }
      if e.response.Some? {
        cachedBytes := cachedBytes - Size(e.response.value);
        if cachedBytes < 0 {
          return true;
        }
      }
      return false;
    }

    method ExpiredKeys(now: real) returns (gone: seq<Key>)
      requires Valid()
      ensures gone == Keep(order, Expired(Contents(), now))
    {
      gone := [];
      for i := 0 to |order|
        invariant gone == Keep(order[..i], Expired(Contents(), now))
      {
        KeepSnoc(order[..i], order[i], Expired(Contents(), now));
        assert order[..i + 1] == order[..i] + [order[i]];
        assert order[i] in order;
        if at[order[i]].expiresAt <= now {
          gone := gone + [order[i]];
        }
      }
      assert order[..|order|] == order;
    }

    method Expire(now: real)
      requires Valid()
      modifies this
      ensures Valid()
      ensures Contents() == Live(old(Contents()), now)
    {
      var gone := ExpiredKeys(now);
      ghost var t := Contents();
      KeepOrder(order, Expired(t, now));
      TableOrdered(config, t);
      DropNothing(t, Elements(gone[..0]));
      DropAllExpired(t, now, gone);
      hide Keep, ValidTable, CachedBytes, ReservedBytes, Drop, Elements, Expired, Ordered, Distinct;
      for i := 0 to |gone|
        invariant Valid()
        invariant Contents() == Drop(t, Elements(gone[..i]))
      {
        DropNext(t, gone, i);
        var _ := Remove(gone[i]);
      }
    }

    /** Write `e` at `k`, move `k` to the end, and add the given amounts to the counters. */
    method Place(k: Key, e: Entry, moreCached: int, moreReserved: int)
      requires Valid() && ValidTable(config, PutLast(Contents(), k, e))
      requires moreCached == CachedOf(map[k := e], k) - CachedOf(at, k)
      requires moreReserved == e.reservedBytes - ReservedOf(at, k)
      modifies this
      ensures Valid()
      ensures Contents() == PutLast(old(Contents()), k, e)
    {
      PutLastSums(Contents(), k, e);
      order, at := Keep(order, at.Keys - {k}) + [k], at[k := e];
      cachedBytes, reservedBytes := cachedBytes + moreCached, reservedBytes + moreReserved;
    }

    method OldestCompletedKey() returns (r: Option<Key>)
      requires Valid()
      ensures r == OldestComplete(Contents())
    {
      TableOrdered(config, Contents());
      hide ValidTable, Distinct, CachedBytes, ReservedBytes;
      for i := 0 to |order|
        invariant FirstComplete(order, at) == FirstComplete(order[i..], at)
      {
        assert order[i] in order && order[i..][1..] == order[i + 1..];
        if at[order[i]].state.Complete? {
          return Some(order[i]);
        }
      }
      return None;
    }

    method EnsureRoom() returns (ok: bool)
      requires Valid()
      modifies this
      ensures Valid()
      ensures ok <==> MakeRoom(config, old(Contents())).Some?
      ensures Contents() == if ok then MakeRoom(config, old(Contents())).value else old(Contents())
    {
      if |order| < config.maxEntries {
        return true;
      }
      if config.evict {
        var oldest := OldestCompletedKey();
        if oldest.Some? {
          var _ := Remove(oldest.value);
          return true;
        }
      }
      return false;
    }

    /** `ok` is false where the source would find no completed entry left to give up. */
    method EnsureResponseRoom(need: nat) returns (ok: bool)
      requires Valid() && config.evict && need <= config.maxTotalBytes
      modifies this
      ensures Valid() && ok
      ensures Contents() == DropOldest(old(Contents()), EvictionCount(old(Contents()), need, config.maxTotalBytes))
    {
      ghost var t := Contents();
      while cachedBytes + need > config.maxTotalBytes
        invariant Valid()
        invariant DropOldest(t, EvictionCount(t, need, config.maxTotalBytes))
               == DropOldest(Contents(), EvictionCount(Contents(), need, config.maxTotalBytes))
        decreases |order|
      {
        if OldestComplete(Contents()).None? { NoVictimMeansRoom(config, Contents(), need); }
        EvictionUnfolds(Contents(), need, config.maxTotalBytes);
        var oldest := OldestCompletedKey();
        if oldest.None? {
          return false;
        }
        DropShrinks(Contents(), oldest.value);
        var _ := Remove(oldest.value);
      }
      EvictionUnfolds(Contents(), need, config.maxTotalBytes);
      return true;
    }

    method AnswerFrom(now: real, k: Key, fingerprint: string) returns (o: Outcome)
      requires Valid() && k in at
      modifies this
      ensures Valid()
      ensures (Contents(), o) == Answer(old(Contents()), now, k, fingerprint)
    {
      AnswerKeeps(config, Contents(), now, k, fingerprint);
      var e := at[k];
      if e.fingerprint != fingerprint {
        return Conflict;
      }
      if e.state.Reserved? {
        return InProgress(Max(0.0, e.expiresAt - now));
      }
      if e.response.None? {
        return InvalidReservation;
      }
      Place(k, e, 0, 0);
      return Replay(e.response.value);
    }

    method AdmitNew(now: real, k: Key, fingerprint: string, token: string) returns (o: Outcome)
      requires Valid() && k !in at
      modifies this
      ensures Valid()
      ensures (Contents(), o) == Admit(config, old(Contents()), now, k, fingerprint, token)
    {
      AdmitKeeps(config, Contents(), now, k, fingerprint, token);
      AdmitSteps(config, Contents(), now, k, fingerprint, token);
      hide Admit, MakeRoom, RetryAfter, ValidTable, CachedBytes, ReservedBytes, PutLast, Keep, CachedOf, ReservedOf;
      var room := EnsureRoom();
      if !room {
        return Capacity(RetryAfter(config, Table(order, at), now));
      }
      var held := 0;
      if !config.evict {
        held := config.maxResponseBytes;
        if cachedBytes + reservedBytes + held > config.maxTotalBytes {
          return Capacity(RetryAfter(config, Table(order, at), now));
        }
      }
      NewAmounts(at, k, Entry(fingerprint, token, Reserved, now + config.reservationTtl, None, held));
      Place(k, Entry(fingerprint, token, Reserved, now + config.reservationTtl, None, held), 0, held);
      return Granted(Reservation(k, fingerprint, token, now + config.reservationTtl));
    }

    method Reserve(now: real, k: Key, fingerprint: string, token: string) returns (o: Outcome)
      requires Valid()
      modifies this
      ensures Valid()
      ensures (Contents(), o) == Ledger.Reserve(config, old(Contents()), now, k, fingerprint, token)
      ensures !o.InvalidReservation?
    {
      ReserveKeeps(config, Contents(), now, k, fingerprint, token);
      if !AcceptableInput(k, fingerprint) {
        return InvalidInput;
      }
      Expire(now);
      if k in at {
        o := AnswerFrom(now, k, fingerprint);
      } else {
        o := AdmitNew(now, k, fingerprint, token);
      }
    }

    method PublishResponse(now: real, k: Key, response: Response) returns (o: Outcome)
      requires Valid() && k in at && at[k].state.Reserved? && Size(response) <= config.maxResponseBytes
      modifies this
      ensures Valid()
      ensures (Contents(), o) == Publish(config, old(Contents()), now, k, response)
    {
      hide ValidTable, CachedBytes, ReservedBytes, DropOldest, EvictionCount, RetryAfter, Keep;
      PublishKeeps(config, Contents(), now, k, response);
      ReservedHolds(config, Contents(), k);
      var e := at[k];
      if config.evict {
        EvictedValid(config, Contents(), k, Size(response));
        var ok := EnsureResponseRoom(Size(response));
        if !ok {
          return Capacity(RetryAfter(config, Table(order, at), now));
        }
      } else {
        if cachedBytes + reservedBytes - e.reservedBytes + Size(response) > config.maxTotalBytes {
          return Capacity(RetryAfter(config, Table(order, at), now));
        }
      }
      var released: int := e.reservedBytes;
      Place(k, Entry(e.fingerprint, e.token, Complete, now + config.ttl, Some(response), 0),
            Size(response), -released);
      return Committed;
    }

    method Commit(now: real, r: Reservation, response: Response) returns (o: Outcome)
      requires Valid()
      modifies this
      ensures Valid()
      ensures (Contents(), o) == Ledger.Commit(config, old(Contents()), now, r, response)
      ensures !o.Capacity?
    {
      CommitKeeps(config, Contents(), now, r, response);
      if Size(response) > config.maxResponseBytes {
        return TooLarge;
      }
      Expire(now);
      if !Owns(Table(order, at), r) {
        return InvalidReservation;
      }
      o := PublishResponse(now, r.key, response);
    }

    method Abort(now: real, r: Reservation) returns (o: Outcome)
      requires Valid()
      modifies this
      ensures Valid()
      ensures (Contents(), o) == Ledger.Abort(old(Contents()), now, r)
    {
      Expire(now);
      if !Owns(Table(order, at), r) {
        return Aborted(false);
      }
      var _ := Remove(r.key);
      return Aborted(true);
    }
  }
}

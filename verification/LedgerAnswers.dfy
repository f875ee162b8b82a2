/** What the ledger answers and leaves behind, stated on the entries it holds and on the clock
alone, for both eviction modes. */
module LedgerAnswers {
  import opened Basics
  import opened Orders
  import opened Ledger
  import opened LedgerLaws
  import opened LedgerRuns

  // ------------------------------------------------------------------ lengths are UTF-8 lengths

  /** The UTF-8 encoding of one character, section 3 of RFC 3629. */
  function EncodeChar(c: char): seq<Byte> {
    var v := c as int;
    if v < 0x80 then [v]
    else if v < 0x800 then [0xC0 + v / 0x40, 0x80 + v % 0x40]
    else if v < 0x1_0000 then [0xE0 + v / 0x40 / 0x40, 0x80 + v / 0x40 % 0x40, 0x80 + v % 0x40]
    else [0xF0 + v / 0x40 / 0x40 / 0x40, 0x80 + v / 0x40 / 0x40 % 0x40, 0x80 + v / 0x40 % 0x40, 0x80 + v % 0x40]
  }

  function Encode(s: string): seq<Byte> {
    if s == "" then [] else EncodeChar(s[0]) + Encode(s[1..])
  }

  /** The value of continuation bytes, six bits each, after the bits `high`. */
  function Continued(high: int, rest: seq<Byte>): int
    decreases |rest|
  {
    if rest == [] then high else Continued(high * 0x40 + (rest[0] as int - 0x80), rest[1..])
  }

  /** How many bytes a first byte announces. */
  function Announced(b: Byte): nat { if b < 0xC0 then 1 else if b < 0xE0 then 2 else if b < 0xF0 then 3 else 4 }

  function DecodeChar(bytes: seq<Byte>): int
    requires bytes != []
  {
    var n, b := Announced(bytes[0]), bytes[0] as int;
    Continued(if n == 1 then b else if n == 2 then b - 0xC0 else if n == 3 then b - 0xE0 else b - 0xF0, bytes[1..])
  }

  /** Each encoding announces its own length and gives its character back. */
  lemma CharRoundTrip(c: char)
    ensures EncodeChar(c) != [] && Announced(EncodeChar(c)[0]) == |EncodeChar(c)|
    ensures DecodeChar(EncodeChar(c)) == c as int
  {
    var v, bytes := c as int, EncodeChar(c);
    if |bytes| == 2 {
      assert bytes[1..] == [bytes[1]] && [bytes[1]][1..] == [];
      assert Continued(v / 0x40, [bytes[1]]) == v;
    } else if |bytes| == 3 {
      assert bytes[1..] == [bytes[1], bytes[2]] && [bytes[1], bytes[2]][1..] == [bytes[2]] && [bytes[2]][1..] == [];
      assert bytes[1] as int - 0x80 == v / 0x40 % 0x40;
      assert Continued(v / 0x40, [bytes[2]]) == v;
      assert Continued(v / 0x40 / 0x40, [bytes[1], bytes[2]]) == Continued(v / 0x40, [bytes[2]]);
    } else if |bytes| == 4 {
      var tail := [bytes[1], bytes[2], bytes[3]];
      assert bytes[1..] == tail && tail[1..] == [bytes[2], bytes[3]];
      assert [bytes[2], bytes[3]][1..] == [bytes[3]] && [bytes[3]][1..] == [];
      assert Continued(v / 0x40, [bytes[3]]) == v;
      assert Continued(v / 0x40 / 0x40, [bytes[2], bytes[3]]) == Continued(v / 0x40, [bytes[3]]);
      assert Continued(v / 0x40 / 0x40 / 0x40, tail) == Continued(v / 0x40 / 0x40, [bytes[2], bytes[3]]);
    } else {
      assert bytes[1..] == [];
    }
  }

  /** The byte lengths the ledger bounds are those of the UTF-8 encoding. */
  lemma {:induction false} Utf8LengthIsEncoded(s: string)
    ensures Utf8Length(s) == |Encode(s)|
  {
    if s != "" { Utf8LengthIsEncoded(s[1..]); }
  }

  function HeaderText(headers: seq<Header>): seq<Byte> {
    if headers == [] then [] else Encode(headers[0].name) + Encode(headers[0].value) + HeaderText(headers[1..])
  }

  /** A response counts for its body and for every encoded byte of its header names and values. */
  lemma {:induction false} SizeIsBytes(r: Response)
    ensures Size(r) == |r.body + HeaderText(r.headers)|
  {
    HeaderBytesAreText(r.headers);
  }

  lemma {:induction false} HeaderBytesAreText(headers: seq<Header>)
    ensures HeaderBytes(headers) == |HeaderText(headers)|
  {
    if headers != [] {
      Utf8LengthIsEncoded(headers[0].name);
      Utf8LengthIsEncoded(headers[0].value);
      HeaderBytesAreText(headers[1..]);
    }
  }

  /** The three texts are non-empty and within 128, 256 and 256 encoded bytes. */
  ghost predicate Presentable(k: Key, fingerprint: string) {
    && 1 <= |Encode(k.tenant)| <= 128 && 1 <= |Encode(k.name)| <= 256 && 1 <= |Encode(fingerprint)| <= 256
  }

  lemma AcceptableIff(k: Key, fingerprint: string)
    ensures AcceptableInput(k, fingerprint) <==> Presentable(k, fingerprint)
  {
    hide Utf8Length, Encode;
    BoundedIff(k.tenant, 128);
    BoundedIff(k.name, 256);
    BoundedIff(fingerprint, 256);
  }

  lemma BoundedIff(s: string, limit: nat)
    ensures BoundedText(s, limit) <==> 1 <= |Encode(s)| <= limit
  {
    Utf8LengthIsEncoded(s);
  }

  // ------------------------------------------------------------------ what a table still holds

  /** The entries whose deadline has not passed. */
  function Unexpired(t: Table, now: real): map<Key, Entry> {
    map k | k in t.at && now < t.at[k].expiresAt :: t.at[k]
  }

  lemma LiveIsUnexpired(t: Table, now: real)
    ensures Live(t, now).at == Unexpired(t, now)
  {
  }

  lemma {:induction false} SumsOfKept(order: seq<Key>, at: map<Key, Entry>, ks: set<Key>, some: map<Key, Entry>)
    requires some.Keys == ks * at.Keys && forall k :: k in some ==> some[k] == at[k]
    ensures SumCached(Keep(order, ks), some) == SumCached(order, some)
    ensures SumReserved(Keep(order, ks), some) == SumReserved(order, some)
  {
    if order != [] {
      SumsOfKept(order[1..], at, ks, some);
      if order[0] in ks {
        assert Keep(order, ks)[1..] == Keep(order[1..], ks);
      } else {
        assert Keep(order, ks) == Keep(order[1..], ks);
      }
    }
  }

  /** Bytes cached in, and held by, unexpired entries. */
  function UnexpiredBytes(t: Table, now: real): nat {
    SumCached(t.order, Unexpired(t, now)) + SumReserved(t.order, Unexpired(t, now))
  }

  lemma LiveBytes(t: Table, now: real)
    ensures CachedBytes(Live(t, now)) + ReservedBytes(Live(t, now)) == UnexpiredBytes(t, now)
  {
    LiveIsUnexpired(t, now);
    var ks := t.at.Keys - Expired(t, now);
    assert Unexpired(t, now).Keys == ks * t.at.Keys;
    SumsOfKept(t.order, t.at, ks, Unexpired(t, now));
  }

  lemma {:induction false} DistinctCount(order: seq<Key>, ks: set<Key>)
    requires Distinct(order) && forall k :: k in order <==> k in ks
    ensures |order| == |ks|
  {
    if order == [] {
      assert ks == {};
    } else {
      var rest := order[1..];
      DistinctHead(order);
      assert forall k :: k in order <==> k == order[0] || k in rest;
      DistinctCount(rest, ks - {order[0]});
    }
  }

  lemma LiveCount(c: Config, t: Table, now: real)
    requires ValidTable(c, t)
    ensures |Live(t, now).order| == |Unexpired(t, now)|
  {
    LiveValid(c, t, now);
    LiveIsUnexpired(t, now);
    DistinctCount(Live(t, now).order, Unexpired(t, now).Keys);
  }

  // ------------------------------------------------------------------ reserve

  /** Nothing may be admitted: with eviction every place is taken by an unexpired reservation;
      without it the places are taken, or a response of the largest size would not fit. */
  ghost predicate Exhausted(c: Config, t: Table, now: real) {
    var held := Unexpired(t, now);
    if c.evict then |held| >= c.maxEntries && forall k :: k in held ==> held[k].state.Reserved?
    else |held| >= c.maxEntries || UnexpiredBytes(t, now) + c.maxResponseBytes > c.maxTotalBytes
  }

  /** `wait` is the time until the first unexpired entry expires. */
  ghost predicate FirstExpiry(t: Table, now: real, wait: real) {
    var held := Unexpired(t, now);
    && (exists k :: k in held && wait == held[k].expiresAt - now)
    && forall k :: k in held ==> wait <= held[k].expiresAt - now
  }

  lemma MayAdmit(c: Config, live: Table)
    requires ValidConfig(c) && ValidTable(c, live)
    ensures MakeRoom(c, live).None? <==>
              |live.order| >= c.maxEntries && (c.evict ==> forall k :: k in live.at ==> live.at[k].state.Reserved?)
  {
    hide Keep;
  }

  lemma WaitIsFirstExpiry(c: Config, live: Table, t: Table, now: real)
    requires ValidTable(c, live) && live.at == Unexpired(t, now) && live.order != []
    ensures FirstExpiry(t, now, RetryAfter(c, live, now))
  {
    hide Keep, CachedBytes, ReservedBytes;
    assert live.order[0] in live.at;
  }

  lemma FullAnswer(c: Config, t: Table, now: real, k: Key, f: string, token: string)
    requires ValidConfig(c) && ValidTable(c, t) && k !in Unexpired(t, now)
    ensures var o := Admit(c, Live(t, now), now, k, f, token).1;
            if Exhausted(c, t, now) then o.Capacity? && FirstExpiry(t, now, o.retryAfter)
            else o == Granted(Reservation(k, f, token, now + c.reservationTtl))
  {
    hide Live, ValidTable, Keep, RetryAfter, FirstExpiry, UnexpiredBytes, Unexpired, FirstComplete;
    var live := Live(t, now);
    LiveValid(c, t, now);
    LiveIsUnexpired(t, now);
    LiveCount(c, t, now);
    LiveBytes(t, now);
    MayAdmit(c, live);
    if Exhausted(c, t, now) {
      HeldSomething(c, live);
      WaitIsFirstExpiry(c, live, t, now);
    }
  }

  lemma HeldSomething(c: Config, live: Table)
    requires ValidConfig(c)
    ensures live.order == [] ==> CachedBytes(live) + ReservedBytes(live) + c.maxResponseBytes <= c.maxTotalBytes
  {
  }

  /** What a reserve answers, exactly, in every case: it depends only on the texts, on the
      unexpired entry under the key, and on whether anything may be admitted. */
  lemma ReserveAnswers(c: Config, t: Table, now: real, k: Key, f: string, token: string)
    requires ValidConfig(c) && ValidTable(c, t)
    ensures var o, held := Reserve(c, t, now, k, f, token).1, Unexpired(t, now);
            if !Presentable(k, f) then o == InvalidInput
            else if k in held then
              if held[k].fingerprint != f then o == Conflict
              else if held[k].state.Reserved? then o == InProgress(held[k].expiresAt - now)
              else o.Replay? && held[k].response == Some(o.response)
            else if Exhausted(c, t, now) then o.Capacity? && FirstExpiry(t, now, o.retryAfter)
            else o == Granted(Reservation(k, f, token, now + c.reservationTtl))
  {
    AcceptableIff(k, f);
    LiveIsUnexpired(t, now);
    if k in Live(t, now).at {
      assert ValidEntry(c, t.at[k]);
    } else {
      FullAnswer(c, t, now, k, f, token);
    }
    hide ValidTable, Live, AcceptableInput, Presentable, Exhausted, FirstExpiry, Admit, Unexpired;
  }

  /** Admission is exact over every history: an acceptable new key is refused for capacity only
      when nothing may be given up, and is granted otherwise. */
  lemma AdmissionIff(c: Config, run: Run)
    requires ValidConfig(c) && run.Then? && run.event.op.ReserveOp?
    requires Presentable(run.event.op.key, run.event.op.fingerprint)
    requires run.event.op.key !in Unexpired(After(c, run.before), run.event.now)
    ensures var t, e := After(c, run.before), run.event;
            && (Answered(c, run).Capacity? <==> Exhausted(c, t, e.now))
            && (Answered(c, run) == Granted(Reservation(e.op.key, e.op.fingerprint, e.op.token, e.now + c.reservationTtl))
                <==> !Exhausted(c, t, e.now))
  {
    hide ValidTable, Presentable, Exhausted, Unexpired, Reserve, FirstExpiry;
    RunAccounting(c, run.before);
    var e := run.event;
    ReserveAnswers(c, After(c, run.before), e.now, e.op.key, e.op.fingerprint, e.op.token);
  }

  /** What a reserve leaves: without a grant exactly the unexpired entries; with one the new
      reservation besides them, less at most one completed entry, and that only when full. */
  lemma ReserveLeaves(c: Config, t: Table, now: real, k: Key, f: string, token: string)
    requires ValidConfig(c) && ValidTable(c, t)
    ensures var (t', o) := Reserve(c, t, now, k, f, token);
            var held := Unexpired(t, now);
            if o.InvalidInput? then t' == t
            else if !o.Granted? then t'.at == held
            else
              var lost := held.Keys - t'.at.Keys;
              && t'.at == (held - lost)[k := Entry(f, token, Reserved, now + c.reservationTtl, None,
                                                   if c.evict then 0 else c.maxResponseBytes)]
              && (if |held| < c.maxEntries then lost == {}
                  else exists q :: lost == {q} && q in held && held[q].state.Complete?)
  {
    LiveIsUnexpired(t, now);
    LiveValid(c, t, now);
    LiveCount(c, t, now);
    var live := Live(t, now);
    hide Live, ValidTable, AcceptableInput, Unexpired, Admit, Answer;
    if k in live.at { AnswerLeaves(live, now, k, f); } else { AdmitLeaves(c, live, now, k, f, token); }
  }

  lemma AnswerLeaves(live: Table, now: real, k: Key, f: string)
    requires k in live.at
    ensures var (t', o) := Answer(live, now, k, f); !o.Granted? && !o.InvalidInput? && t'.at == live.at
  {
    hide Keep;
    assert live.at[k := live.at[k]] == live.at;
  }

  lemma AdmitLeaves(c: Config, live: Table, now: real, k: Key, f: string, token: string)
    requires ValidConfig(c) && ValidTable(c, live) && k !in live.at
    ensures var (t', o) := Admit(c, live, now, k, f, token);
            if !o.Granted? then !o.InvalidInput? && t'.at == live.at
            else
              var lost := live.at.Keys - t'.at.Keys;
              && t'.at == (live.at - lost)[k := Entry(f, token, Reserved, now + c.reservationTtl, None,
                                                      if c.evict then 0 else c.maxResponseBytes)]
              && (if |live.order| < c.maxEntries then lost == {}
                  else exists q :: lost == {q} && q in live.at && live.at[q].state.Complete?)
  {
    if MakeRoom(c, live).Some? { MakeRoomLeaves(c, live); }
    hide MakeRoom, ValidTable, Keep, CachedBytes, ReservedBytes, RetryAfter;
    var (t', o) := Admit(c, live, now, k, f, token);
    if o.Granted? {
      var room := MakeRoom(c, live).value;
      assert t'.at.Keys == room.at.Keys + {k};
      assert live.at.Keys - t'.at.Keys == live.at.Keys - room.at.Keys;
    }
  }

  lemma MakeRoomLeaves(c: Config, live: Table)
    requires MakeRoom(c, live).Some?
    ensures var room := MakeRoom(c, live).value;
            var lost := live.at.Keys - room.at.Keys;
            && room.at == live.at - lost
            && (!c.evict ==> lost == {})
            && (if |live.order| < c.maxEntries then lost == {}
                else exists q :: lost == {q} && q in live.at && live.at[q].state.Complete?)
  {
    hide Keep;
    if |live.order| >= c.maxEntries {
      var q := OldestComplete(live).value;
      assert live.at.Keys - MakeRoom(c, live).value.at.Keys == {q};
    } else {
      assert live.at.Keys - live.at.Keys == {};
      assert live.at - {} == live.at;
    }
  }

  // ------------------------------------------------------------------ commit, abort and length

  /** The reservation's own entry is unexpired and still a reservation. */
  ghost predicate Current(t: Table, now: real, r: Reservation) {
    var held := Unexpired(t, now);
    && r.key in held && held[r.key].state.Reserved?
    && held[r.key].token == r.token && held[r.key].fingerprint == r.fingerprint
  }

  lemma OwnsIsCurrent(t: Table, now: real, r: Reservation)
    ensures Owns(Live(t, now), r) <==> Current(t, now, r)
  {
    LiveIsUnexpired(t, now);
  }

  /** What a commit answers and leaves, exactly: too large a response changes nothing; otherwise
      the current owner's entry, and no other, becomes the response for one time to live, and
      only completed entries may be given up for it, none of them without eviction. */
  lemma CommitAnswers(c: Config, t: Table, now: real, r: Reservation, response: Response)
    requires ValidConfig(c) && ValidTable(c, t)
    ensures var (t', o) := Commit(c, t, now, r, response);
            var held := Unexpired(t, now);
            if |response.body + HeaderText(response.headers)| > c.maxResponseBytes then o == TooLarge && t' == t
            else if !Current(t, now, r) then o == InvalidReservation && t'.at == held
            else
              var lost := held.Keys - t'.at.Keys;
              && o == Committed
              && t'.at == (held - lost)[r.key := Entry(r.fingerprint, r.token, Complete, now + c.ttl, Some(response), 0)]
              && r.key !in lost && (!c.evict ==> lost == {})
              && forall k :: k in lost ==> held[k].state.Complete?
  {
    SizeIsBytes(response);
    LiveIsUnexpired(t, now);
    LiveValid(c, t, now);
    OwnsIsCurrent(t, now, r);
    var live := Live(t, now);
    hide Live, ValidTable, Size, HeaderText, Unexpired;
    if Owns(live, r) && Size(response) <= c.maxResponseBytes { PublishLeaves(c, live, now, r.key, response); }
  }

  lemma PublishLeaves(c: Config, live: Table, now: real, k: Key, response: Response)
    requires ValidConfig(c) && ValidTable(c, live) && k in live.at && live.at[k].state.Reserved?
    requires Size(response) <= c.maxResponseBytes
    ensures var (t', o) := Publish(c, live, now, k, response);
            var lost := live.at.Keys - t'.at.Keys;
            && o == Committed
            && t'.at == (live.at - lost)[k := Entry(live.at[k].fingerprint, live.at[k].token, Complete, now + c.ttl, Some(response), 0)]
            && k !in lost && (!c.evict ==> lost == {})
            && forall q :: q in lost ==> live.at[q].state.Complete?
  {
    hide Publish, DropOldest, EvictionCount, Size, PutLast, ValidTable, ValidConfig;
    var room := if c.evict then DropOldest(live, EvictionCount(live, Size(response), c.maxTotalBytes)) else live;
    PublishKeeps(c, live, now, k, response);
    PublishedIn(c, live, now, k, response);
    RoomLeaves(c, live, k, response);
    PutLeaves(live, room, k, CompletedEntry(c, now, live.at[k], response));
  }

  lemma PublishedIn(c: Config, live: Table, now: real, k: Key, response: Response)
    requires k in live.at && Publish(c, live, now, k, response).1.Committed?
    ensures var room := if c.evict then DropOldest(live, EvictionCount(live, Size(response), c.maxTotalBytes)) else live;
            Publish(c, live, now, k, response).0 == PutLast(room, k, CompletedEntry(c, now, live.at[k], response))
  {
    hide DropOldest, EvictionCount, Size, PutLast, CachedBytes, ReservedBytes, RetryAfter;
  }

  lemma RoomLeaves(c: Config, live: Table, k: Key, response: Response)
    requires ValidConfig(c) && ValidTable(c, live) && k in live.at && live.at[k].state.Reserved?
    requires Size(response) <= c.maxResponseBytes
    ensures var room := if c.evict then DropOldest(live, EvictionCount(live, Size(response), c.maxTotalBytes)) else live;
            && k in room.at && (!c.evict ==> room.at == live.at)
            && (forall q :: q in room.at ==> q in live.at && room.at[q] == live.at[q])
            && forall q :: q in live.at && q !in room.at ==> live.at[q].state.Complete?
  {
    if c.evict {
      TableOrdered(c, live);
      EvictsShortestPrefix(c, live, Size(response));
      DropOldestSpares(live, EvictionCount(live, Size(response), c.maxTotalBytes));
    }
  }

  lemma PutLeaves(live: Table, room: Table, k: Key, e: Entry)
    requires k in room.at && forall q :: q in room.at ==> q in live.at && room.at[q] == live.at[q]
    ensures var t' := PutLast(room, k, e);
            var lost := live.at.Keys - t'.at.Keys;
            && t'.at == (live.at - lost)[k := e] && k !in lost
            && (forall q :: q in lost <==> q in live.at && q !in room.at)
            && (room.at == live.at ==> lost == {})
  {
    hide Keep;
  }

  /** What an abort answers and leaves, exactly: the current owner's entry goes, and nothing else
      that has not expired. */
  lemma AbortAnswers(t: Table, now: real, r: Reservation)
    ensures var (t', o) := Abort(t, now, r);
            && o == Aborted(Current(t, now, r))
            && t'.at == Unexpired(t, now) - if Current(t, now, r) then {r.key} else {}
  {
    LiveIsUnexpired(t, now);
    OwnsIsCurrent(t, now, r);
    hide Live, Unexpired;
    assert Unexpired(t, now) - {} == Unexpired(t, now);
  }

  /** The reported length counts the unexpired entries. */
  lemma LengthAnswers(c: Config, run: Run)
    requires ValidConfig(c) && run.Then? && run.event.op.LengthOp?
    ensures Answered(c, run) == Length(|Unexpired(After(c, run.before), run.event.now)|)
  {
    RunAccounting(c, run.before);
    LiveCount(c, After(c, run.before), run.event.now);
    hide ValidTable, Live;
  }
}

/** Values and state-to-state meaning of the idempotency ledger.

An `OrderedDict` is a `Table`: the keys in recency order, and the entry at each key.  The
byte counters of the source are not part of a table: they are sums over it (`CachedBytes`,
`ReservedBytes`), and the class `IdempotencyStore` proves that its counters equal them.
Clock readings and freshly drawn ownership tokens are arguments. */
module Ledger {
  import opened Basics
  import opened Orders

  datatype Header = Header(name: string, value: string)

  datatype Response = Response(status: int, body: seq<Byte>, headers: seq<Header>)

  function Utf8Width(c: char): (n: nat)
    ensures 1 <= n <= 4
  {
    var v := c as int;
    if v < 0x80 then 1 else if v < 0x800 then 2 else if v < 0x10000 then 3 else 4
  }

  function Utf8Length(s: string): (n: nat)
    ensures |s| <= n <= 4 * |s|
  {
    if s == [] then 0 else Utf8Width(s[0]) + Utf8Length(s[1..])
  }

  function HeaderBytes(headers: seq<Header>): nat {
    if headers == [] then 0
    else Utf8Length(headers[0].name) + Utf8Length(headers[0].value) + HeaderBytes(headers[1..])
  }

  function Size(r: Response): nat {
    |r.body| + HeaderBytes(r.headers)
  }

  /** A tenant and an idempotency key; the source stores the SHA-256 digest of the key. */
  datatype Key = Key(tenant: string, name: string)

  datatype EntryState = Reserved | Complete

  datatype Entry = Entry(
    fingerprint: string,
    token: string,
    state: EntryState,
    expiresAt: real,
    response: Option<Response>,
    reservedBytes: nat)

  datatype Config = Config(
    ttl: real,
    reservationTtl: real,
    maxEntries: nat,
    maxResponseBytes: nat,
    maxTotalBytes: nat,
    evict: bool)

  ghost predicate ValidConfig(c: Config) {
    && c.ttl > 0.0 && c.reservationTtl > 0.0
    && 0 < c.maxEntries
    && 0 < c.maxResponseBytes <= c.maxTotalBytes
  }

  /** An insertion-ordered dictionary: `order` lists exactly the keys of `at`, once each. */
  datatype Table = Table(order: seq<Key>, at: map<Key, Entry>)

  const EMPTY := Table([], map[])

  ghost predicate Ordered(t: Table) {
    && Distinct(t.order)
    && (forall k :: k in t.order <==> k in t.at)
  }

  // ------------------------------------------------------------------ sums over a table

  function CachedOf(at: map<Key, Entry>, k: Key): nat {
    if k in at && at[k].response.Some? then Size(at[k].response.value) else 0
  }

  function ReservedOf(at: map<Key, Entry>, k: Key): nat {
    if k in at then at[k].reservedBytes else 0
  }

  function SumCached(order: seq<Key>, at: map<Key, Entry>): nat {
    if order == [] then 0 else CachedOf(at, order[0]) + SumCached(order[1..], at)
  }

  function SumReserved(order: seq<Key>, at: map<Key, Entry>): nat {
    if order == [] then 0 else ReservedOf(at, order[0]) + SumReserved(order[1..], at)
  }

  function CachedBytes(t: Table): nat { SumCached(t.order, t.at) }

  function ReservedBytes(t: Table): nat { SumReserved(t.order, t.at) }

  // ------------------------------------------------------------------ table operations

  function Drop(t: Table, gone: set<Key>): Table {
    Table(Keep(t.order, t.at.Keys - gone), t.at - gone)
  }

  function Expired(t: Table, now: real): set<Key> {
    set k | k in t.at && t.at[k].expiresAt <= now
  }

  /** What remains once every entry whose deadline has passed is gone. */
  function Live(t: Table, now: real): Table {
    Drop(t, Expired(t, now))
  }

  /** `d[k] = e; d.move_to_end(k)` */
  function PutLast(t: Table, k: Key, e: Entry): Table {
    Table(Keep(t.order, t.at.Keys - {k}) + [k], t.at[k := e])
  }

  function FirstComplete(order: seq<Key>, at: map<Key, Entry>): (r: Option<Key>)
    ensures r.Some? ==> r.value in order && r.value in at && at[r.value].state.Complete?
    ensures r.None? ==> forall k :: k in order && k in at ==> at[k].state.Reserved?
  {
    if order == [] then None
    else if order[0] in at && at[order[0]].state.Complete? then Some(order[0])
    else FirstComplete(order[1..], at)
  }

  function OldestComplete(t: Table): Option<Key> {
    FirstComplete(t.order, t.at)
  }

  // ------------------------------------------------------------------ the ledger's operations

  datatype Reservation = Reservation(key: Key, fingerprint: string, token: string, expiresAt: real)

  datatype Outcome =
    | Granted(reservation: Reservation)
    | Replay(response: Response)
    | InvalidInput
    | Conflict
    | InProgress(retryAfter: real)
    | Capacity(retryAfter: real)
    | InvalidReservation
    | TooLarge
    | Committed
    | Aborted(released: bool)
    | Length(entries: nat)

  const MAX_TENANT_ID_BYTES := 128
  const MAX_IDEMPOTENCY_KEY_BYTES := 256
  const MAX_FINGERPRINT_BYTES := 256

  predicate BoundedText(s: string, limit: nat) {
    s != [] && Utf8Length(s) <= limit
  }

  predicate AcceptableInput(k: Key, fingerprint: string) {
    && BoundedText(k.tenant, MAX_TENANT_ID_BYTES)
    && BoundedText(k.name, MAX_IDEMPOTENCY_KEY_BYTES)
    && BoundedText(fingerprint, MAX_FINGERPRINT_BYTES)
  }

  /** Time until the first of the listed entries expires. */
  function Soonest(order: seq<Key>, at: map<Key, Entry>, now: real, default: real): (r: real)
    ensures forall k :: k in order && k in at ==> r <= Max(0.0, at[k].expiresAt - now)
    ensures r == default || exists k :: k in order && k in at && r == Max(0.0, at[k].expiresAt - now)
    ensures order == [] ==> r == default
    ensures order != [] && (forall k :: k in order ==> k in at) ==>
              exists k :: k in order && k in at && r == Max(0.0, at[k].expiresAt - now)
  {
    if order == [] then default
    else if order[0] !in at then Soonest(order[1..], at, now, default)
    else
      var wait := Max(0.0, at[order[0]].expiresAt - now);
      var rest := Soonest(order[1..], at, now, default);
      if order[1..] == [] || wait <= rest then wait else rest
  }

  function RetryAfter(c: Config, t: Table, now: real): real {
    Soonest(t.order, t.at, now, c.reservationTtl)
  }

  /** Room for one more entry, or `None` when nothing may be given up. */
  function MakeRoom(c: Config, t: Table): Option<Table> {
    if |t.order| < c.maxEntries then Some(t)
    else if c.evict && OldestComplete(t).Some? then Some(Drop(t, {OldestComplete(t).value}))
    else None
  }

  function ReservedEntry(c: Config, now: real, fingerprint: string, token: string): Entry {
    Entry(fingerprint, token, Reserved, now + c.reservationTtl, None,
          if c.evict then 0 else c.maxResponseBytes)
  }

  function CompletedEntry(c: Config, now: real, e: Entry, r: Response): Entry {
    Entry(e.fingerprint, e.token, Complete, now + c.ttl, Some(r), 0)
  }

  /** A live entry answers for its key: conflict, wait, or an exact replay that renews recency. */
  function Answer(live: Table, now: real, k: Key, fingerprint: string): (Table, Outcome)
    requires k in live.at
  {
    var e := live.at[k];
    if e.fingerprint != fingerprint then (live, Conflict)
    else if e.state.Reserved? then (live, InProgress(Max(0.0, e.expiresAt - now)))
    else if e.response.None? then (live, InvalidReservation)
    else (PutLast(live, k, e), Replay(e.response.value))
  }

  /** Unseen work is admitted if an entry, and without eviction also a full-size response, fits. */
  function Admit(c: Config, live: Table, now: real, k: Key, fingerprint: string, token: string): (Table, Outcome) {
    match MakeRoom(c, live)
    case None => (live, Capacity(RetryAfter(c, live, now)))
    case Some(room) =>
      if !c.evict && CachedBytes(room) + ReservedBytes(room) + c.maxResponseBytes > c.maxTotalBytes then
        (room, Capacity(RetryAfter(c, room, now)))
      else
        (PutLast(room, k, ReservedEntry(c, now, fingerprint, token)),
         Granted(Reservation(k, fingerprint, token, now + c.reservationTtl)))
  }

  function Reserve(c: Config, t: Table, now: real, k: Key, fingerprint: string, token: string): (Table, Outcome) {
    if !AcceptableInput(k, fingerprint) then (t, InvalidInput)
    else
      var live := Live(t, now);
      if k in live.at then Answer(live, now, k, fingerprint)
      else Admit(c, live, now, k, fingerprint, token)
  }

  predicate Owns(t: Table, r: Reservation) {
    && r.key in t.at
    && t.at[r.key].state.Reserved?
    && t.at[r.key].token == r.token
    && t.at[r.key].fingerprint == r.fingerprint
  }

  /** The least number of oldest completed entries to give up so that `need` more bytes fit. */
  function EvictionCount(t: Table, need: nat, limit: nat): nat
    decreases |t.order|
  {
    if CachedBytes(t) + need <= limit || OldestComplete(t).None? then 0
    else
      DropShrinks(t, OldestComplete(t).value);
      1 + EvictionCount(Drop(t, {OldestComplete(t).value}), need, limit)
  }

  /** `t` without its `n` oldest completed entries. */
  function DropOldest(t: Table, n: nat): Table
    decreases n
  {
    if n == 0 || OldestComplete(t).None? then t
    else DropOldest(Drop(t, {OldestComplete(t).value}), n - 1)
  }

  /** Replace an owned reservation by its response. */
  function Publish(c: Config, live: Table, now: real, k: Key, response: Response): (Table, Outcome)
    requires k in live.at
  {
    var e := CompletedEntry(c, now, live.at[k], response);
    if c.evict then
      var room := DropOldest(live, EvictionCount(live, Size(response), c.maxTotalBytes));
      if CachedBytes(room) + Size(response) > c.maxTotalBytes then (room, Capacity(RetryAfter(c, room, now)))
      else (PutLast(room, k, e), Committed)
    else if CachedBytes(live) + ReservedBytes(live) - live.at[k].reservedBytes + Size(response) > c.maxTotalBytes then
      (live, Capacity(RetryAfter(c, live, now)))
    else (PutLast(live, k, e), Committed)
  }

  function Commit(c: Config, t: Table, now: real, r: Reservation, response: Response): (Table, Outcome) {
    if Size(response) > c.maxResponseBytes then (t, TooLarge)
    else
      var live := Live(t, now);
      if Owns(live, r) then Publish(c, live, now, r.key, response) else (live, InvalidReservation)
  }

  function Abort(t: Table, now: real, r: Reservation): (Table, Outcome) {
    var live := Live(t, now);
    if Owns(live, r) then (Drop(live, {r.key}), Aborted(true)) else (live, Aborted(false))
  }

  // ------------------------------------------------------------------ invariant

  ghost predicate ValidEntry(c: Config, e: Entry) {
    match e.state
    case Reserved => e.response.None? && e.reservedBytes == if c.evict then 0 else c.maxResponseBytes
    case Complete => e.response.Some? && e.reservedBytes == 0 && Size(e.response.value) <= c.maxResponseBytes
  }

  ghost predicate ValidTable(c: Config, t: Table) {
    && Ordered(t)
    && (forall k :: k in t.at ==> ValidEntry(c, t.at[k]))
    && |t.order| <= c.maxEntries
    && CachedBytes(t) <= c.maxTotalBytes
    && (!c.evict ==> CachedBytes(t) + ReservedBytes(t) <= c.maxTotalBytes)
  }

  // ------------------------------------------------------------------ lemmas about tables

  lemma DropOrdered(t: Table, gone: set<Key>)
    requires Ordered(t)
    ensures Ordered(Drop(t, gone))
  {
    KeepOrder(t.order, t.at.Keys - gone);
  }

  lemma DropShrinks(t: Table, k: Key)
    requires k in t.order
    ensures |Drop(t, {k}).order| < |t.order|
  {
    KeepStrict(t.order, t.at.Keys - {k}, k);
  }

  lemma PutLastOrdered(t: Table, k: Key, e: Entry)
    requires Ordered(t)
    ensures Ordered(PutLast(t, k, e))
    ensures |PutLast(t, k, e).order| <= |t.order| + 1
    ensures k in t.at ==> |PutLast(t, k, e).order| <= |t.order|
  {
    var r := PutLast(t, k, e);
    KeepOrder(t.order, t.at.Keys - {k});
    if k in t.at { KeepStrict(t.order, t.at.Keys - {k}, k); }
    assert k !in Keep(t.order, t.at.Keys - {k});
  }

  /** Sums over keys that two maps agree on are the same. */
  lemma {:induction false} SumsAgree(order: seq<Key>, at: map<Key, Entry>, at': map<Key, Entry>)
    requires forall k :: k in order ==> k in at && k in at' && at[k] == at'[k]
    ensures SumCached(order, at) == SumCached(order, at')
    ensures SumReserved(order, at) == SumReserved(order, at')
  {
    if order != [] {
      SumsAgree(order[1..], at, at');
    }
  }

  lemma {:induction false} SumsKeep(order: seq<Key>, at: map<Key, Entry>, ks: set<Key>)
    ensures SumCached(Keep(order, ks), at) <= SumCached(order, at)
    ensures SumReserved(Keep(order, ks), at) <= SumReserved(order, at)
  {
    if order != [] {
      SumsKeep(order[1..], at, ks);
      assert order[0] in ks ==> Keep(order, ks)[1..] == Keep(order[1..], ks);
      assert order[0] !in ks ==> Keep(order, ks) == Keep(order[1..], ks);
    }
  }

  lemma DropSums(t: Table, gone: set<Key>)
    requires Ordered(t)
    ensures CachedBytes(Drop(t, gone)) <= CachedBytes(t)
    ensures ReservedBytes(Drop(t, gone)) <= ReservedBytes(t)
  {
    SumsKeep(t.order, t.at, t.at.Keys - gone);
    SumsAgree(Keep(t.order, t.at.Keys - gone), t.at, t.at - gone);
  }

  lemma {:induction false} SumsKeepOne(order: seq<Key>, at: map<Key, Entry>, ks: set<Key>, k: Key)
    requires Distinct(order)
    requires k in order && k !in ks && forall q :: q in order && q != k ==> q in ks
    ensures SumCached(Keep(order, ks), at) == SumCached(order, at) - CachedOf(at, k)
    ensures SumReserved(Keep(order, ks), at) == SumReserved(order, at) - ReservedOf(at, k)
    ensures |Keep(order, ks)| == |order| - 1
  {
    if order[0] == k {
      KeepAll(order[1..], ks);
      assert Keep(order, ks) == order[1..];
    } else {
      SumsKeepOne(order[1..], at, ks, k);
      assert Keep(order, ks)[1..] == Keep(order[1..], ks);
    }
  }

  /** Dropping one key takes exactly that key's bytes out of both sums. */
  lemma DropOneSums(t: Table, k: Key)
    requires Ordered(t) && k in t.at
    ensures CachedBytes(Drop(t, {k})) == CachedBytes(t) - CachedOf(t.at, k)
    ensures ReservedBytes(Drop(t, {k})) == ReservedBytes(t) - ReservedOf(t.at, k)
    ensures |Drop(t, {k}).order| == |t.order| - 1
  {
    SumsKeepOne(t.order, t.at, t.at.Keys - {k}, k);
    SumsAgree(Keep(t.order, t.at.Keys - {k}), t.at, t.at - {k});
  }

  lemma {:induction false} SumsAppend(order: seq<Key>, k: Key, at: map<Key, Entry>)
    ensures SumCached(order + [k], at) == SumCached(order, at) + CachedOf(at, k)
    ensures SumReserved(order + [k], at) == SumReserved(order, at) + ReservedOf(at, k)
  {
    if order == [] {
      assert order + [k] == [k];
    } else {
      SumsAppend(order[1..], k, at);
      assert (order + [k])[1..] == order[1..] + [k];
    }
  }

  lemma PutLastSums(t: Table, k: Key, e: Entry)
    requires Ordered(t)
    ensures CachedBytes(PutLast(t, k, e)) == CachedBytes(t) - CachedOf(t.at, k) + CachedOf(map[k := e], k)
    ensures ReservedBytes(PutLast(t, k, e)) == ReservedBytes(t) - ReservedOf(t.at, k) + e.reservedBytes
  {
    var rest := Keep(t.order, t.at.Keys - {k});
    SumsAppend(rest, k, t.at[k := e]);
    SumsAgree(rest, t.at[k := e], t.at);
    if k in t.at {
      SumsKeepOne(t.order, t.at, t.at.Keys - {k}, k);
    } else {
      KeepAll(t.order, t.at.Keys - {k});
    }
  }

  lemma DropValid(c: Config, t: Table, gone: set<Key>)
    requires ValidTable(c, t)
    ensures ValidTable(c, Drop(t, gone))
  {
    DropOrdered(t, gone);
    DropSums(t, gone);
  }
}

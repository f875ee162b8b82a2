/** Laws of the ledger over every sequence of operations.

A `Run` is the history of one store: each event is an operation and the clock reading it was
given.  What a run promises is stated against definitions that look only at the history. */
module LedgerRuns {
  import opened Basics
  import opened Ledger
  import opened LedgerLaws
  import opened Orders

  datatype Op =
    | ReserveOp(key: Key, fingerprint: string, token: string)
    | CommitOp(reservation: Reservation, response: Response)
    | AbortOp(reservation: Reservation)
    | LengthOp

  datatype Event = Event(now: real, op: Op)

  datatype Run = Start | Then(before: Run, event: Event)

  function Apply(c: Config, t: Table, e: Event): (Table, Outcome) {
    match e.op
    case ReserveOp(k, f, token) => Reserve(c, t, e.now, k, f, token)
    case CommitOp(r, response) => Commit(c, t, e.now, r, response)
    case AbortOp(r) => Abort(t, e.now, r)
    case LengthOp => (Live(t, e.now), Length(|Live(t, e.now).order|))
  }

  function After(c: Config, run: Run): Table {
    match run
    case Start => EMPTY
    case Then(before, e) => Apply(c, After(c, before), e).0
  }

  function Answered(c: Config, run: Run): Outcome
    requires run.Then?
  {
    Apply(c, After(c, run.before), run.event).1
  }

  function Extend(run: Run, events: seq<Event>): Run {
    if events == [] then run else Then(Extend(run, events[..|events| - 1]), events[|events| - 1])
  }

  // ------------------------------------------------------------------ what the history says

  /** The event committed a response under key `k`. */
  ghost predicate Commits(c: Config, run: Run, k: Key)
    requires run.Then?
  {
    run.event.op.CommitOp? && run.event.op.reservation.key == k && Answered(c, run).Committed?
  }

  /** The last successful commit under key `k`. */
  ghost function LastCommit(c: Config, run: Run, k: Key): (r: Option<Event>)
    ensures r.Some? ==> r.value.op.CommitOp?
  {
    match run
    case Start => None
    case Then(before, e) => if Commits(c, run, k) then Some(e) else LastCommit(c, before, k)
  }

  ghost predicate Touches(c: Config, run: Run, k: Key)
    requires run.Then?
  {
    || Commits(c, run, k)
    || (run.event.op.ReserveOp? && run.event.op.key == k && Answered(c, run).Replay?)
  }

  ghost function TouchedKey(c: Config, run: Run): Option<Key>
    requires run.Then?
  {
    match run.event.op
    case ReserveOp(k, _, _) => if Touches(c, run, k) then Some(k) else None
    case CommitOp(r, _) => if Touches(c, run, r.key) then Some(r.key) else None
    case _ => None
  }

  /** Keys ever committed or replayed, the most recent last. */
  ghost function Recency(c: Config, run: Run): seq<Key> {
    match run
    case Start => []
    case Then(before, _) =>
      match TouchedKey(c, run)
      case None => Recency(c, before)
      case Some(k) => Renew(Recency(c, before), k)
  }

  ghost predicate Monotone(run: Run) {
    run.Then? ==> Monotone(run.before) && (run.before.Then? ==> run.before.event.now <= run.event.now)
  }

  ghost function Issued(run: Run): set<string> {
    if run.Start? then {}
    else Issued(run.before) + if run.event.op.ReserveOp? then {run.event.op.token} else {}
  }

  /** No reserve draws a token that an earlier one drew. */
  ghost predicate FreshTokens(run: Run) {
    run.Then? ==>
      && FreshTokens(run.before)
      && (run.event.op.ReserveOp? ==> run.event.op.token !in Issued(run.before))
  }

  // ------------------------------------------------------------------ accounting

  /** Over every run: the table is well formed, its entry count and byte sums stay within the
      configured bounds, no commit is refused for capacity and no reserve finds a corrupt entry. */
  lemma {:induction false} RunAccounting(c: Config, run: Run)
    requires ValidConfig(c)
    ensures ValidTable(c, After(c, run))
    ensures run.Then? && run.event.op.CommitOp? ==> !Answered(c, run).Capacity?
    ensures run.Then? && run.event.op.ReserveOp? ==> !Answered(c, run).InvalidReservation?
  {
    if run.Then? {
      RunAccounting(c, run.before);
      var t := After(c, run.before);
      match run.event.op
      case ReserveOp(k, f, token) => ReserveKeeps(c, t, run.event.now, k, f, token);
      case CommitOp(r, response) => CommitKeeps(c, t, run.event.now, r, response);
      case AbortOp(r) => AbortKeeps(c, t, run.event.now, r);
      case LengthOp => LiveValid(c, t, run.event.now);
    }
  }

  // ------------------------------------------------------------------ one step, entry by entry

  lemma AdmitEntries(c: Config, live: Table, now: real, q: Key, f: string, token: string, k: Key)
    requires ValidTable(c, live) && q !in live.at
    ensures var (t', o) := Admit(c, live, now, q, f, token);
      k in t'.at ==>
        || (o.Granted? && q == k && t'.at[k] == ReservedEntry(c, now, f, token))
        || (k in live.at && t'.at[k] == live.at[k])
  {
    hide ValidTable, Keep, CachedBytes, ReservedBytes, RetryAfter, FirstComplete;
  }

  lemma PublishEntries(c: Config, live: Table, now: real, q: Key, response: Response, k: Key)
    requires ValidConfig(c) && ValidTable(c, live) && q in live.at && live.at[q].state.Reserved?
    requires Size(response) <= c.maxResponseBytes
    ensures var (t', o) := Publish(c, live, now, q, response);
      && o.Committed?
      && (k in t'.at ==> k in live.at)
      && (k in t'.at && k != q ==> t'.at[k] == live.at[k])
      && (k in t'.at && k == q ==> t'.at[k] == CompletedEntry(c, now, live.at[k], response))
  {
    PublishKeeps(c, live, now, q, response);
    hide ValidTable, Keep, CachedBytes, ReservedBytes, RetryAfter, FirstComplete;
    if c.evict {
      EvictsShortestPrefix(c, live, Size(response));
      TableOrdered(c, live);
      DropOldestSpares(live, EvictionCount(live, Size(response), c.maxTotalBytes));
    }
  }

  /** An entry after an event was there before and unexpired, or was just written. */
  lemma StepEntries(c: Config, t: Table, e: Event, k: Key)
    requires ValidConfig(c) && ValidTable(c, t)
    ensures var (t', o) := Apply(c, t, e);
      k in t'.at ==>
        || (o.Granted? && e.op.ReserveOp? && e.op.key == k && AcceptableInput(k, e.op.fingerprint)
            && t'.at[k] == ReservedEntry(c, e.now, e.op.fingerprint, e.op.token))
        || (o.Committed? && e.op.CommitOp? && e.op.reservation.key == k && Owns(t, e.op.reservation)
            && t'.at[k] == CompletedEntry(c, e.now, t.at[k], e.op.response))
        || (k in t.at && t'.at[k] == t.at[k] && (e.now < t.at[k].expiresAt || o.InvalidInput? || o.TooLarge?)
            && !(o.Committed? && e.op.CommitOp? && e.op.reservation.key == k))
  {
    LiveValid(c, t, e.now);
    hide ValidTable, Keep, Admit, Publish, AcceptableInput;
    var live := Live(t, e.now);
    match e.op
    case ReserveOp(q, f, token) =>
      if q !in live.at { AdmitEntries(c, live, e.now, q, f, token, k); }
    case CommitOp(r, response) =>
      if Size(response) <= c.maxResponseBytes && Owns(live, r) {
        PublishEntries(c, live, e.now, r.key, response, k);
      }
    case AbortOp(r) =>
    case LengthOp =>
  }

  lemma AdmitRetains(c: Config, live: Table, now: real, q: Key, f: string, token: string, k: Key)
    requires ValidTable(c, live) && k in live.at && q !in live.at
    requires !c.evict || live.at[k].state.Reserved?
    ensures var t' := Admit(c, live, now, q, f, token).0; k in t'.at && t'.at[k] == live.at[k]
  {
  }

  lemma PublishRetains(c: Config, live: Table, now: real, q: Key, response: Response, k: Key)
    requires ValidConfig(c) && ValidTable(c, live) && k in live.at && q in live.at && k != q
    requires Size(response) <= c.maxResponseBytes
    requires !c.evict || live.at[k].state.Reserved?
    ensures var t' := Publish(c, live, now, q, response).0; k in t'.at && t'.at[k] == live.at[k]
  {
    if c.evict {
      EvictsShortestPrefix(c, live, Size(response));
      DropOldestSpares(live, EvictionCount(live, Size(response), c.maxTotalBytes));
    }
  }

  /** Without eviction an unexpired entry outlives every event but its own commit or abort;
      with eviction an unexpired reservation does. */
  lemma StepRetains(c: Config, t: Table, e: Event, k: Key)
    requires ValidConfig(c) && ValidTable(c, t)
    requires k in t.at && e.now < t.at[k].expiresAt
    requires !c.evict || t.at[k].state.Reserved?
    requires (e.op.CommitOp? || e.op.AbortOp?) && e.op.reservation.key == k ==>
               e.op.reservation.token != t.at[k].token || t.at[k].state.Complete?
    ensures k in Apply(c, t, e).0.at && Apply(c, t, e).0.at[k] == t.at[k]
  {
    LiveValid(c, t, e.now);
    var live := Live(t, e.now);
    match e.op
    case ReserveOp(q, f, token) =>
      if q !in live.at { AdmitRetains(c, live, e.now, q, f, token, k); }
    case CommitOp(r, response) =>
      if Size(response) <= c.maxResponseBytes && Owns(live, r) {
        PublishRetains(c, live, e.now, r.key, response, k);
      }
    case AbortOp(r) =>
    case LengthOp =>
  }

  // ------------------------------------------------------------------ refinement of a timed map

  /** A completed entry is the last commit under its key, with that commit's deadline. */
  ghost predicate Records(c: Config, k: Key, entry: Entry, commit: Option<Event>) {
    && commit.Some? && commit.value.op.CommitOp?
    && commit.value.op.reservation.key == k
    && entry.response == Some(commit.value.op.response)
    && entry.fingerprint == commit.value.op.reservation.fingerprint
    && entry.expiresAt == commit.value.now + c.ttl
  }

  lemma {:induction false} CompletedRecordsLastCommit(c: Config, run: Run, k: Key)
    requires ValidConfig(c)
    requires k in After(c, run).at && After(c, run).at[k].state.Complete?
    ensures Records(c, k, After(c, run).at[k], LastCommit(c, run, k))
  {
    RunAccounting(c, run.before);
    StepEntries(c, After(c, run.before), run.event, k);
    if !Commits(c, run, k) {
      CompletedRecordsLastCommit(c, run.before, k);
    }
  }

  /** A replay answers only with the response of the last successful commit for that tenant,
      key and fingerprint, made less than the time to live ago.  No clock assumption. */
  lemma ReplayIsLastCommit(c: Config, run: Run)
    requires ValidConfig(c) && run.Then? && run.event.op.ReserveOp? && Answered(c, run).Replay?
    ensures var k := run.event.op.key;
            var last := LastCommit(c, run.before, k);
            && last.Some?
            && last.value.op.reservation.key == k
            && last.value.op.reservation.fingerprint == run.event.op.fingerprint
            && Answered(c, run).response == last.value.op.response
            && run.event.now < last.value.now + c.ttl
  {
    CompletedRecordsLastCommit(c, run.before, run.event.op.key);
  }

  lemma {:induction false} EntriesAcceptable(c: Config, run: Run, k: Key)
    requires ValidConfig(c) && k in After(c, run).at
    ensures AcceptableInput(k, After(c, run).at[k].fingerprint)
  {
    RunAccounting(c, run.before);
    StepEntries(c, After(c, run.before), run.event, k);
    if k in After(c, run.before).at {
      EntriesAcceptable(c, run.before, k);
    }
  }

  /** With eviction off, an unexpired commit is still in the table. */
  lemma {:induction false} CommitIsRetained(c: Config, run: Run, k: Key)
    requires ValidConfig(c) && !c.evict && Monotone(run) && run.Then?
    requires LastCommit(c, run, k).Some? && run.event.now < LastCommit(c, run, k).value.now + c.ttl
    ensures k in After(c, run).at && After(c, run).at[k].state.Complete?
  {
    RunAccounting(c, run.before);
    var t := After(c, run.before);
    if Commits(c, run, k) {
      assert Owns(Live(t, run.event.now), run.event.op.reservation);
    } else {
      CommitIsRetained(c, run.before, k);
      CompletedRecordsLastCommit(c, run.before, k);
      StepRetains(c, t, run.event, k);
    }
  }

  /** With eviction off and a clock that never goes back, a reserve replays `r` exactly when
      the last commit under its key had its fingerprint and response `r` and is not yet `ttl`
      old: nothing completed is forgotten early, nothing expired is remembered. */
  lemma ReplayIffUnexpiredCommit(c: Config, run: Run, r: Response)
    requires ValidConfig(c) && !c.evict && Monotone(run) && run.Then? && run.event.op.ReserveOp?
    ensures Answered(c, run) == Replay(r) <==>
            var last := LastCommit(c, run.before, run.event.op.key);
            && last.Some?
            && last.value.op.reservation.fingerprint == run.event.op.fingerprint
            && last.value.op.response == r
            && run.event.now < last.value.now + c.ttl
  {
    var k := run.event.op.key;
    var last := LastCommit(c, run.before, k);
    if Answered(c, run) == Replay(r) {
      ReplayIsLastCommit(c, run);
    }
    if last.Some? && run.event.now < last.value.now + c.ttl {
      CommitIsRetained(c, run.before, k);
      CompletedRecordsLastCommit(c, run.before, k);
      EntriesAcceptable(c, run.before, k);
    }
  }

  // ------------------------------------------------------------------ exclusive ownership

  ghost predicate Uses(e: Event, r: Reservation) {
    (e.op.CommitOp? || e.op.AbortOp?) && e.op.reservation.key == r.key && e.op.reservation.token == r.token
  }

  lemma {:induction false} ReservationHolds(c: Config, run: Run, events: seq<Event>)
    requires ValidConfig(c) && run.Then? && run.event.op.ReserveOp? && Answered(c, run).Granted?
    requires var r := Answered(c, run).reservation;
             forall i :: 0 <= i < |events| ==> events[i].now < r.expiresAt && !Uses(events[i], r)
    ensures var r := Answered(c, run).reservation;
            var t := After(c, Extend(run, events));
            && Owns(t, r) && t.at[r.key].expiresAt == r.expiresAt
  {
    if events != [] {
      var n := |events| - 1;
      ReservationHolds(c, run, events[..n]);
      RunAccounting(c, Extend(run, events[..n]));
      StepRetains(c, After(c, Extend(run, events[..n])), events[n], Answered(c, run).reservation.key);
    }
  }

  /** From a grant until its commit, abort or expiry, every other reserve on that key is
      refused: in progress for the same request, conflict for another. */
  lemma NoSecondOwner(c: Config, run: Run, events: seq<Event>, late: Event)
    requires ValidConfig(c) && run.Then? && run.event.op.ReserveOp? && Answered(c, run).Granted?
    requires var r := Answered(c, run).reservation;
             && (forall i :: 0 <= i < |events| ==> events[i].now < r.expiresAt && !Uses(events[i], r))
             && late.now < r.expiresAt
             && late.op.ReserveOp? && late.op.key == r.key && AcceptableInput(r.key, late.op.fingerprint)
    ensures var r := Answered(c, run).reservation;
            var o := Answered(c, Then(Extend(run, events), late));
            o == if late.op.fingerprint == r.fingerprint then InProgress(r.expiresAt - late.now) else Conflict
  {
    ReservationHolds(c, run, events);
  }

  /** The token of `r` was drawn, and `r` no longer owns anything. */
  ghost predicate Stale(c: Config, run: Run, r: Reservation) {
    r.token in Issued(run) && !Owns(After(c, run), r)
  }

  lemma {:induction false} StaleStays(c: Config, run: Run, events: seq<Event>, r: Reservation)
    requires ValidConfig(c) && Stale(c, run, r) && FreshTokens(Extend(run, events))
    ensures Stale(c, Extend(run, events), r)
  {
    if events != [] {
      var n := |events| - 1;
      var p := Extend(run, events[..n]);
      StaleStays(c, run, events[..n], r);
      RunAccounting(c, p);
      StepEntries(c, After(c, p), events[n], r.key);
    }
  }

  /** A reservation that was committed, aborted, expired or superseded has no effect ever
      again: its commit and abort are refused and change nothing beyond expiries. */
  lemma StaleIsPowerless(c: Config, run: Run, events: seq<Event>, r: Reservation, late: Event)
    requires ValidConfig(c) && Stale(c, run, r) && FreshTokens(Extend(run, events))
    requires (late.op.CommitOp? || late.op.AbortOp?) && late.op.reservation == r
    ensures var t := After(c, Extend(run, events));
            var (t', o) := Apply(c, t, late);
            && (o == InvalidReservation || o == TooLarge || o == Aborted(false))
            && (t' == t || t' == Live(t, late.now))
  {
    StaleStays(c, run, events, r);
  }

  /** What makes a reservation stale: its commit, its abort, its deadline, or a successor. */
  lemma BecomesStale(c: Config, run: Run, r: Reservation)
    requires ValidConfig(c) && run.Then? && FreshTokens(run) && r.token in Issued(run.before)
    requires
      || (run.event.op.CommitOp? && run.event.op.reservation == r && Answered(c, run).Committed?)
      || (run.event.op.AbortOp? && run.event.op.reservation == r)
      || (r.key in After(c, run.before).at && After(c, run.before).at[r.key].expiresAt <= run.event.now
          && !Answered(c, run).InvalidInput? && !Answered(c, run).TooLarge?)
      || (run.event.op.ReserveOp? && run.event.op.key == r.key && Answered(c, run).Granted?)
    ensures Stale(c, run, r)
  {
    RunAccounting(c, run.before);
    StepEntries(c, After(c, run.before), run.event, r.key);
  }

  // ------------------------------------------------------------------ least recently used

  lemma CompletedDrop(t: Table, gone: set<Key>, recency: seq<Key>)
    requires Ordered(t) && Completed(t) == Keep(recency, CompleteKeys(t))
    ensures Completed(Drop(t, gone)) == Keep(recency, CompleteKeys(Drop(t, gone)))
  {
    var u := Drop(t, gone);
    KeepKeep(t.order, t.at.Keys - gone, CompleteKeys(u));
    KeepKeep(t.order, CompleteKeys(t), CompleteKeys(u));
    KeepKeep(recency, CompleteKeys(t), CompleteKeys(u));
    assert (t.at.Keys - gone) * CompleteKeys(u) == CompleteKeys(u) == CompleteKeys(t) * CompleteKeys(u);
  }

  lemma CompletedReserve(t: Table, k: Key, e: Entry, recency: seq<Key>)
    requires Ordered(t) && Completed(t) == Keep(recency, CompleteKeys(t)) && k !in t.at && e.state.Reserved?
    ensures Completed(PutLast(t, k, e)) == Keep(recency, CompleteKeys(PutLast(t, k, e)))
  {
    var u := PutLast(t, k, e);
    assert CompleteKeys(u) == CompleteKeys(t);
    KeepAll(t.order, t.at.Keys - {k});
    KeepAppend(t.order, [k], CompleteKeys(u));
  }

  lemma CompletedTouch(t: Table, k: Key, e: Entry, recency: seq<Key>)
    requires Ordered(t) && Completed(t) == Keep(recency, CompleteKeys(t)) && e.state.Complete?
    ensures Completed(PutLast(t, k, e))
         == Keep(Renew(recency, k), CompleteKeys(PutLast(t, k, e)))
  {
    var u := PutLast(t, k, e);
    var ks := CompleteKeys(u);
    assert ks == CompleteKeys(t) + {k};
    var others := ks - {k};
    KeepAppend(Keep(t.order, t.at.Keys - {k}), [k], ks);
    KeepKeep(t.order, t.at.Keys - {k}, ks);
    KeepKeep(t.order, CompleteKeys(t), others);
    KeepSame(t.order, (t.at.Keys - {k}) * ks, CompleteKeys(t) * others);
    KeepAppend(Keep(recency, Elements(recency) - {k}), [k], ks);
    KeepKeep(recency, Elements(recency) - {k}, ks);
    KeepKeep(recency, CompleteKeys(t), others);
    KeepSame(recency, (Elements(recency) - {k}) * ks, CompleteKeys(t) * others);
  }

  lemma OrderAnswer(live: Table, now: real, k: Key, f: string, recency: seq<Key>)
    requires Ordered(live) && k in live.at && Completed(live) == Keep(recency, CompleteKeys(live))
    ensures var (t', o) := Answer(live, now, k, f);
            Completed(t') == Keep(if o.Replay? then Renew(recency, k) else recency,
                                  CompleteKeys(t'))
  {
    if Answer(live, now, k, f).1.Replay? { CompletedTouch(live, k, live.at[k], recency); }
  }

  lemma OrderAdmit(c: Config, live: Table, now: real, k: Key, f: string, token: string, recency: seq<Key>)
    requires ValidConfig(c) && ValidTable(c, live) && k !in live.at
    requires Completed(live) == Keep(recency, CompleteKeys(live))
    ensures var (t', o) := Admit(c, live, now, k, f, token); !o.Replay? && Completed(t') == Keep(recency, CompleteKeys(t'))
  {
    if MakeRoom(c, live).Some? {
      RoomValid(c, live);
      TableOrdered(c, live);
      TableOrdered(c, MakeRoom(c, live).value);
      hide ValidTable, Keep, Completed, CompleteKeys, Ordered, CachedBytes, ReservedBytes, RetryAfter, FirstComplete;
      if |live.order| >= c.maxEntries { CompletedDrop(live, {OldestComplete(live).value}, recency); }
      CompletedReserve(MakeRoom(c, live).value, k, ReservedEntry(c, now, f, token), recency);
    }
  }

  lemma OrderPublish(c: Config, live: Table, now: real, k: Key, response: Response, recency: seq<Key>)
    requires ValidConfig(c) && ValidTable(c, live) && k in live.at && live.at[k].state.Reserved?
    requires Completed(live) == Keep(recency, CompleteKeys(live)) && Size(response) <= c.maxResponseBytes
    ensures var (t', o) := Publish(c, live, now, k, response);
            && o.Committed?
            && Completed(t') == Keep(Renew(recency, k), CompleteKeys(t'))
  {
    PublishKeeps(c, live, now, k, response);
    var e := CompletedEntry(c, now, live.at[k], response);
    if c.evict {
      var n := EvictionCount(live, Size(response), c.maxTotalBytes);
      EvictedValid(c, live, k, Size(response));
      EvictsShortestPrefix(c, live, Size(response));
      DropOldestIsPrefix(live, n);
      CompletedDrop(live, Elements(Completed(live)[..n]), recency);
      CompletedTouch(DropOldest(live, n), k, e, recency);
    } else {
      CompletedTouch(live, k, e, recency);
    }
  }

  ghost predicate InRecencyOrder(c: Config, run: Run) {
    Completed(After(c, run)) == Keep(Recency(c, run), CompleteKeys(After(c, run)))
  }

  lemma LiveCompleted(t: Table, now: real, recency: seq<Key>)
    requires Ordered(t) && Completed(t) == Keep(recency, CompleteKeys(t))
    ensures Completed(Live(t, now)) == Keep(recency, CompleteKeys(Live(t, now)))
  {
    hide Keep, CompleteKeys, Completed, Expired;
    CompletedDrop(t, Expired(t, now), recency);
  }

  lemma OrderReserve(c: Config, t: Table, now: real, k: Key, f: string, token: string, recency: seq<Key>)
    requires ValidConfig(c) && ValidTable(c, t) && Completed(t) == Keep(recency, CompleteKeys(t))
    ensures var (t', o) := Reserve(c, t, now, k, f, token);
            Completed(t') == Keep(if o.Replay? then Renew(recency, k) else recency, CompleteKeys(t'))
  {
    var live := Live(t, now);
    LiveValid(c, t, now);
    TableOrdered(c, t);
    LiveCompleted(t, now, recency);
    hide ValidTable, Keep, Completed, CompleteKeys, Admit, Answer, Renew, AcceptableInput, Live, Ordered;
    if k in live.at { OrderAnswer(live, now, k, f, recency); }
    else { OrderAdmit(c, live, now, k, f, token, recency); }
  }

  lemma OrderCommit(c: Config, t: Table, now: real, r: Reservation, response: Response, recency: seq<Key>)
    requires ValidConfig(c) && ValidTable(c, t) && Completed(t) == Keep(recency, CompleteKeys(t))
    ensures var (t', o) := Commit(c, t, now, r, response);
            Completed(t') == Keep(if o.Committed? then Renew(recency, r.key) else recency, CompleteKeys(t'))
  {
    var live := Live(t, now);
    LiveValid(c, t, now);
    CompletedDrop(t, Expired(t, now), recency);
    if Size(response) <= c.maxResponseBytes && Owns(live, r) {
      OrderPublish(c, live, now, r.key, response, recency);
    }
  }

  lemma OrderAbort(c: Config, t: Table, now: real, r: Reservation, recency: seq<Key>)
    requires ValidTable(c, t) && Completed(t) == Keep(recency, CompleteKeys(t))
    ensures var t' := Abort(t, now, r).0; Completed(t') == Keep(recency, CompleteKeys(t'))
  {
    LiveValid(c, t, now);
    CompletedDrop(t, Expired(t, now), recency);
    if Owns(Live(t, now), r) { CompletedDrop(Live(t, now), {r.key}, recency); }
  }

  /** In every reachable state the completed entries stand in the order of their last commit
      or replay, as read off the history alone. */
  lemma {:induction false} OrderIsRecency(c: Config, run: Run)
    requires ValidConfig(c)
    ensures InRecencyOrder(c, run)
  {
    hide Keep, Reserve, Commit, Renew;
    if run.Then? {
      OrderIsRecency(c, run.before);
      RunAccounting(c, run.before);
      var t, recency, now := After(c, run.before), Recency(c, run.before), run.event.now;
      match run.event.op
      case ReserveOp(k, f, token) => OrderReserve(c, t, now, k, f, token, recency);
      case CommitOp(r, response) => OrderCommit(c, t, now, r, response, recency);
      case AbortOp(r) => OrderAbort(c, t, now, r, recency);
      case LengthOp => CompletedDrop(t, Expired(t, now), recency);
    }
  }

  /** The completed entries that are unexpired when the last event begins, least recently
      committed or replayed first: a reading of the history. */
  ghost function LruOrder(c: Config, run: Run): seq<Key>
    requires run.Then?
  {
    Keep(Recency(c, run.before), CompleteKeys(Live(After(c, run.before), run.event.now)))
  }

  lemma LruIsTableOrder(c: Config, run: Run)
    requires ValidConfig(c) && run.Then?
    ensures var live := Live(After(c, run.before), run.event.now);
            ValidTable(c, live) && LruOrder(c, run) == Completed(live)
  {
    OrderIsRecency(c, run.before);
    RunAccounting(c, run.before);
    LiveValid(c, After(c, run.before), run.event.now);
    CompletedDrop(After(c, run.before), Expired(After(c, run.before), run.event.now), Recency(c, run.before));
  }

  lemma AdmitLoses(c: Config, live: Table, now: real, q: Key, f: string, token: string)
    requires c.evict && ValidTable(c, live) && q !in live.at
    requires Admit(c, live, now, q, f, token).1.Granted?
    ensures var lost := live.at.Keys - Admit(c, live, now, q, f, token).0.at.Keys;
            if |live.order| < c.maxEntries then lost == {}
            else Completed(live) != [] && lost == {Completed(live)[0]}
  {
    OldestIsHead(live);
    hide ValidTable, Keep, CachedBytes, ReservedBytes, RetryAfter, FirstComplete, Completed;
    if |live.order| >= c.maxEntries {
      var victim := OldestComplete(live).value;
      OldestPresent(live);
      assert MakeRoom(c, live) == Some(Drop(live, {victim}));
    }
  }

  lemma OldestPresent(t: Table)
    ensures OldestComplete(t).Some? ==> OldestComplete(t).value in t.at
  {
  }

  /** A grant under count pressure drops exactly the completed entry whose last commit or
      replay is oldest, and a grant without pressure drops nothing unexpired. */
  lemma CountEvictionIsLru(c: Config, run: Run)
    requires ValidConfig(c) && c.evict && run.Then? && run.event.op.ReserveOp? && Answered(c, run).Granted?
    ensures var live := Live(After(c, run.before), run.event.now);
            var lost := live.at.Keys - After(c, run).at.Keys;
            if |live.order| < c.maxEntries then lost == {}
            else LruOrder(c, run) != [] && lost == {LruOrder(c, run)[0]}
  {
    hide ValidTable, Keep, Admit, Completed, LruOrder, AcceptableInput;
    LruIsTableOrder(c, run);
    var live := Live(After(c, run.before), run.event.now);
    AdmitLoses(c, live, run.event.now, run.event.op.key, run.event.op.fingerprint, run.event.op.token);
  }

  lemma PublishLoses(c: Config, live: Table, now: real, k: Key, response: Response)
    requires ValidConfig(c) && c.evict && ValidTable(c, live) && Size(response) <= c.maxResponseBytes
    requires k in live.at && live.at[k].state.Reserved?
    ensures var n := EvictionCount(live, Size(response), c.maxTotalBytes);
            && n <= |Completed(live)|
            && live.at.Keys - Publish(c, live, now, k, response).0.at.Keys == Elements(Completed(live)[..n])
  {
    var n := EvictionCount(live, Size(response), c.maxTotalBytes);
    EvictsShortestPrefix(c, live, Size(response));
    DropOldestIsPrefix(live, n);
    DropOldestSpares(live, n);
    forall q | q in Completed(live)[..n] ensures q in live.at && q != k { assert q in Completed(live); }
  }

  /** A commit under byte pressure drops exactly the shortest prefix of the LRU order that
      makes the response fit; live reservations and every other entry stay. */
  lemma ByteEvictionIsLru(c: Config, run: Run) returns (n: nat)
    requires ValidConfig(c) && c.evict && run.Then? && run.event.op.CommitOp? && Answered(c, run).Committed?
    ensures var live := Live(After(c, run.before), run.event.now);
            var lru := LruOrder(c, run);
            var need := Size(run.event.op.response);
            && n <= |lru|
            && live.at.Keys - After(c, run).at.Keys == Elements(lru[..n])
            && CachedBytes(Drop(live, Elements(lru[..n]))) + need <= c.maxTotalBytes
            && forall m :: 0 <= m < n ==> CachedBytes(Drop(live, Elements(lru[..m]))) + need > c.maxTotalBytes
  {
    hide ValidTable, Keep, Publish, Completed, LruOrder, EvictionCount, Elements, Size, CachedBytes;
    LruIsTableOrder(c, run);
    var live := Live(After(c, run.before), run.event.now);
    var need := Size(run.event.op.response);
    n := EvictionCount(live, need, c.maxTotalBytes);
    PublishLoses(c, live, run.event.now, run.event.op.reservation.key, run.event.op.response);
    ShortestPrefix(c, live, need);
  }

  lemma ShortestPrefix(c: Config, live: Table, need: nat)
    requires ValidTable(c, live) && need <= c.maxTotalBytes
    ensures var n := EvictionCount(live, need, c.maxTotalBytes);
            && n <= |Completed(live)|
            && CachedBytes(Drop(live, Elements(Completed(live)[..n]))) + need <= c.maxTotalBytes
            && forall m :: 0 <= m < n ==>
                 CachedBytes(Drop(live, Elements(Completed(live)[..m]))) + need > c.maxTotalBytes
  {
    var n := EvictionCount(live, need, c.maxTotalBytes);
    EvictsShortestPrefix(c, live, need);
    DropOldestIsPrefix(live, n);
    forall m | 0 <= m < n
      ensures CachedBytes(Drop(live, Elements(Completed(live)[..m]))) + need > c.maxTotalBytes
    {
      DropOldestIsPrefix(live, m);
    }
  }
}

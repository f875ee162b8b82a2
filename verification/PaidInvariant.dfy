/** What every step of the paid protocol keeps. */
module PaidInvariant {
  import opened Basics
  import opened Ledger
  import opened Orders
  import opened LedgerLaws
  import opened PaidProtocol

  // ------------------------------------------------------------------ how a ledger step changes a table

  /** Only expired entries disappear; nothing is added or changed. */
  ghost predicate Ages(at: map<Key, Entry>, at': map<Key, Entry>, now: real) {
    && (forall k :: k in at' ==> k in at && at'[k] == at[k])
    && (forall k :: k in at && now < at[k].expiresAt ==> k in at')
  }

  /** What a reserve without eviction may do to a table. */
  ghost predicate ReserveEffect(c: Config, t: Table, now: real, k: Key, f: string, token: string, t': Table, o: Outcome) {
    && ValidTable(c, t')
    && (!o.Granted? ==> Ages(t.at, t'.at, now))
    && (o.Granted? ==>
          && AcceptableInput(k, f)
          && o.reservation == Reservation(k, f, token, now + c.reservationTtl)
          && Ages(t.at, t'.at - {k}, now)
          && (k in t.at ==> t.at[k].expiresAt <= now)
          && k in t'.at && t'.at[k] == ReservedEntry(c, now, f, token))
    && (o.Replay? ==>
          && k in t.at && t.at[k].state.Complete? && t.at[k].fingerprint == f
          && t.at[k].response == Some(o.response) && now < t.at[k].expiresAt)
  }

  lemma ReserveHas(c: Config, t: Table, now: real, k: Key, f: string, token: string)
    requires ValidConfig(c) && !c.evict && ValidTable(c, t)
    ensures var (t', o) := Reserve(c, t, now, k, f, token); ReserveEffect(c, t, now, k, f, token, t', o)
  {
    hide ValidTable, Ordered, CachedBytes, ReservedBytes, RetryAfter, Keep, OldestComplete;
    ReserveKeeps(c, t, now, k, f, token);
  }

  ghost predicate CommitEffect(c: Config, t: Table, now: real, r: Reservation, response: Response, t': Table, o: Outcome) {
    && ValidTable(c, t')
    && (!o.Committed? ==> Ages(t.at, t'.at, now))
    && (o.Committed? ==>
          && Owns(t, r) && now < t.at[r.key].expiresAt
          && Ages(t.at - {r.key}, t'.at - {r.key}, now)
          && r.key in t'.at && t'.at[r.key] == CompletedEntry(c, now, t.at[r.key], response))
  }

  lemma CommitHas(c: Config, t: Table, now: real, r: Reservation, response: Response)
    requires ValidConfig(c) && !c.evict && ValidTable(c, t)
    ensures var (t', o) := Commit(c, t, now, r, response); CommitEffect(c, t, now, r, response, t', o)
  {
    CommitKeeps(c, t, now, r, response);
  }

  ghost predicate AbortEffect(c: Config, t: Table, now: real, r: Reservation, t': Table) {
    && ValidTable(c, t')
    && !Owns(t', r)
    && (Ages(t.at, t'.at, now) || (Owns(t, r) && Ages(t.at - {r.key}, t'.at, now)))
  }

  lemma AbortHas(c: Config, t: Table, now: real, r: Reservation)
    requires ValidTable(c, t)
    ensures AbortEffect(c, t, now, r, Abort(t, now, r).0)
  {
    hide ValidTable, Keep;
    AbortKeeps(c, t, now, r);
  }

  // ------------------------------------------------------------------ the invariant

  /** Which of a handler's recorded times exist in each phase. */
  ghost predicate PhaseOk(h: Handler) {
    && (h.claim.Some? <==> h.claimReservedAt.Some?)
    && (h.claim.Some? ==> h.checkedAt.Some?)
    && (h.checkedAt.Some? ==> h.reservation.Some?)
    && (h.claimCommittedAt.Some? ==> h.claim.Some?)
    && (h.submittedAt.Some? ==> h.claimCommittedAt.Some?)
    && (h.recordedAt.Some? ==> h.submittedAt.Some? && h.rendered.Some?)
    && (h.rendered.Some? ==> h.submittedAt.Some?)
    && match h.phase
       case Idle => h.reservation.None?
       case Admitted => h.reservation.Some? && h.checkedAt.None?
       case Verifying => h.checkedAt.Some? && h.claim.None?
       case Verified => h.checkedAt.Some? && h.claim.None?
       case Binding => h.claim.Some? && h.claimCommittedAt.None?
       case Bound => h.claim.Some? && h.claimCommittedAt.None?
       case Claimed => h.claimCommittedAt.Some? && h.submittedAt.None?
       case Settling => h.submittedAt.Some? && h.rendered.None?
       case Settled => h.submittedAt.Some? && h.recordedAt.None?
       case Unwinding => h.reservation.Some? && h.claimCommittedAt.None?
       case UnwindingClaim => h.claim.Some? && h.claimCommittedAt.None?
       case Ended(Failed) => h.claimCommittedAt.None?
       case Ended(Cancelled) => h.claimCommittedAt.Some? ==> h.submittedAt.Some?
       case Ended(Finished) => h.submittedAt.Some?
       case Ended(_) => h.reservation.None?
  }

  /** A handler's times are ordered, its reservations are its own, its window check passed. */
  ghost predicate HandlerOk(p: Params, s: State, i: nat)
    requires i < |s.handlers| == |p.requests|
  {
    var q, h := p.requests[i], s.handlers[i];
    && PhaseOk(h)
    && (h.reservation.Some? ==>
          var r := h.reservation.value;
          && r.key == ResultKey(q) && r.fingerprint == q.fingerprint
          && AcceptableInput(r.key, r.fingerprint)
          && r.token in s.drawn && s.drawn[r.token] == i
          && r.expiresAt <= s.clock + PROTECTED_RESERVATION_TTL_SECONDS)
    && (h.claim.Some? ==>
          var r := h.claim.value;
          && r.key == ClaimKey(q) && r.fingerprint == q.fingerprint
          && r.token in s.drawn && s.drawn[r.token] == i
          && r.expiresAt == h.claimReservedAt.value + PROTECTED_RESERVATION_TTL_SECONDS
          && h.checkedAt.value <= h.claimReservedAt.value <= s.clock)
    && (h.checkedAt.Some? ==>
          && h.checkedAt.value < q.validBefore as real <= h.checkedAt.value + p.timeout as real
          && h.checkedAt.value <= s.clock)
    && (h.claimCommittedAt.Some? ==> h.claimReservedAt.value <= h.claimCommittedAt.value <= s.clock)
    && (h.submittedAt.Some? ==>
          && h.claimCommittedAt.value <= h.submittedAt.value <= s.clock
          && h.reservation.value.expiresAt <= h.submittedAt.value + PROTECTED_RESERVATION_TTL_SECONDS)
    && (h.recordedAt.Some? ==>
          && h.submittedAt.value <= h.recordedAt.value <= s.clock
          && h.recordedAt.value < h.reservation.value.expiresAt)
    && (h.rendered.Some? ==> CachedProof(h.rendered.value.headers) == Some(q.proofFingerprint))
    && |h.body| <= MAX_CACHED_RESULT_BYTES
  }

  /** The handler has aborted its result reservation. */
  predicate Released(h: Handler) { h.phase.UnwindingClaim? || h.phase == Ended(Failed) }

  /** An entry of the result ledger belongs to the handler that drew its token. */
  ghost predicate ResultOk(p: Params, s: State, k: Key)
    requires |s.handlers| == |p.requests| && k in s.results.at
  {
    var e := s.results.at[k];
    && e.token in s.drawn && s.drawn[e.token] < |s.handlers|
    && var q, h := p.requests[s.drawn[e.token]], s.handlers[s.drawn[e.token]];
    && k == ResultKey(q) && e.fingerprint == q.fingerprint
    && h.reservation.Some? && h.reservation.value.token == e.token
    && (e.state.Reserved? ==>
          && e.expiresAt == h.reservation.value.expiresAt && h.recordedAt.None?
          && !Released(h))
    && (e.state.Complete? ==>
          && h.recordedAt.Some? && e.expiresAt == h.recordedAt.value + PAYMENT_CLAIM_TTL_SECONDS
          && e.response.Some? && e.response == h.rendered
          && CachedProof(e.response.value.headers) == Some(q.proofFingerprint))
  }

  /** An entry of the claim ledger belongs to the handler that drew its token. */
  ghost predicate ClaimOk(p: Params, s: State, k: Key)
    requires |s.handlers| == |p.requests| && k in s.claims.at
  {
    var e := s.claims.at[k];
    && e.token in s.drawn && s.drawn[e.token] < |s.handlers|
    && var q, h := p.requests[s.drawn[e.token]], s.handlers[s.drawn[e.token]];
    && k == ClaimKey(q) && e.fingerprint == q.fingerprint
    && h.claim.Some? && h.claim.value.token == e.token
    && (e.state.Reserved? ==>
          && h.claimCommittedAt.None? && e.expiresAt == h.claim.value.expiresAt
          && h.phase != Ended(Failed))
    && (e.state.Complete? ==>
          && h.claimCommittedAt.Some?
          && e.expiresAt == h.claimCommittedAt.value + PAYMENT_CLAIM_TTL_SECONDS)
  }

  /** Handler `i`'s claim is the entry now in the ledger. */
  ghost predicate HoldsClaim(p: Params, s: State, i: nat)
    requires i < |s.handlers| == |p.requests|
  {
    && s.handlers[i].claim.Some? && ClaimKey(p.requests[i]) in s.claims.at
    && s.claims.at[ClaimKey(p.requests[i])].token == s.handlers[i].claim.value.token
  }

  /** Handler `i`'s result reservation is the entry now in the ledger. */
  ghost predicate HoldsResult(p: Params, s: State, i: nat)
    requires i < |s.handlers| == |p.requests|
  {
    && s.handlers[i].reservation.Some? && ResultKey(p.requests[i]) in s.results.at
    && s.results.at[ResultKey(p.requests[i])].token == s.handlers[i].reservation.value.token
  }

  /** How long handler `i`'s entry of the result ledger lives. */
  function ResultDeadline(h: Handler): real
    requires h.reservation.Some?
  {
    if h.recordedAt.Some? then h.recordedAt.value + PAYMENT_CLAIM_TTL_SECONDS else h.reservation.value.expiresAt
  }

  /** A result reservation that was not aborted, and then the recorded result, is in the ledger
      until its deadline. */
  ghost predicate ResultKept(p: Params, s: State, i: nat)
    requires i < |s.handlers| == |p.requests|
  {
    s.handlers[i].reservation.Some? && !Released(s.handlers[i]) && s.clock < ResultDeadline(s.handlers[i]) ==>
      HoldsResult(p, s, i)
  }

  /** A committed claim is in the ledger, complete, until its time to live has passed. */
  ghost predicate ClaimRetained(p: Params, s: State, i: nat)
    requires i < |s.handlers| == |p.requests|
  {
    s.handlers[i].claimCommittedAt.Some? && s.clock < s.handlers[i].claimCommittedAt.value + PAYMENT_CLAIM_TTL_SECONDS ==>
      && HoldsClaim(p, s, i)
      && s.claims.at[ClaimKey(p.requests[i])].state.Complete?
      && s.claims.at[ClaimKey(p.requests[i])].expiresAt
           == s.handlers[i].claimCommittedAt.value + PAYMENT_CLAIM_TTL_SECONDS
  }

  ghost predicate After(h: Handler, h': Handler) {
    && h.claimCommittedAt.Some? && h'.claimReservedAt.Some?
    && h.claimCommittedAt.value + PAYMENT_CLAIM_TTL_SECONDS <= h'.claimReservedAt.value
  }

  /** Once a claim was committed, any other claim on that authorization that is held or
      committed was reserved at least one time to live apart. */
  ghost predicate Apart(p: Params, s: State, i: nat, j: nat)
    requires i < |s.handlers| == |p.requests| && j < |s.handlers|
  {
    var h, h' := s.handlers[i], s.handlers[j];
    i != j && p.requests[i].authorization == p.requests[j].authorization && h.claimCommittedAt.Some?
      && (h'.claimCommittedAt.Some? || HoldsClaim(p, s, j)) ==>
      After(h, h') || (h'.claimCommittedAt.Some? && After(h', h))
  }

  /** The replay shown to handler `i` was recorded by handler `j`. */
  ghost predicate ReplayFrom(p: Params, s: State, i: nat, j: nat)
    requires i < |s.handlers| == |p.requests| && j < |s.handlers|
    requires s.handlers[i].phase.Ended? && s.handlers[i].phase.ending.Replayed?
  {
    var q, q', h := p.requests[i], p.requests[j], s.handlers[j];
    var at := s.handlers[i].phase.ending.at;
    && q.key == q'.key && q.fingerprint == q'.fingerprint && q.proofFingerprint == q'.proofFingerprint
    && h.submittedAt.Some? && h.recordedAt.Some? && h.recordedAt.value <= at
    && h.rendered == Some(s.handlers[i].phase.ending.response)
    && at < h.recordedAt.value + PAYMENT_CLAIM_TTL_SECONDS
  }

  ghost predicate ReplayOk(p: Params, s: State, i: nat)
    requires i < |s.handlers| == |p.requests|
  {
    s.handlers[i].phase.Ended? && s.handlers[i].phase.ending.Replayed? ==>
      exists j :: 0 <= j < |s.handlers| && ReplayFrom(p, s, i, j)
  }

  ghost predicate Handlers(p: Params, s: State)
    requires |s.handlers| == |p.requests|
  {
    forall i :: 0 <= i < |s.handlers| ==> HandlerOk(p, s, i)
  }

  ghost predicate Results(p: Params, s: State)
    requires |s.handlers| == |p.requests|
  {
    && (forall k :: k in s.results.at ==> ResultOk(p, s, k))
    && (forall i :: 0 <= i < |s.handlers| ==> ResultKept(p, s, i))
  }

  ghost predicate Claims(p: Params, s: State)
    requires |s.handlers| == |p.requests|
  {
    && (forall k :: k in s.claims.at ==> ClaimOk(p, s, k))
    && (forall i :: 0 <= i < |s.handlers| ==> ClaimRetained(p, s, i))
    && (forall i, j :: 0 <= i < |s.handlers| && 0 <= j < |s.handlers| ==> Apart(p, s, i, j))
  }

  ghost predicate Replays(p: Params, s: State)
    requires |s.handlers| == |p.requests|
  {
    forall i :: 0 <= i < |s.handlers| ==> ReplayOk(p, s, i)
  }

  ghost predicate Inv(p: Params, s: State) {
    && |s.handlers| == |p.requests|
    && ValidTable(RESULTS, s.results) && ValidTable(CLAIMS, s.claims)
    && Handlers(p, s) && Results(p, s) && Claims(p, s) && Replays(p, s)
  }

  // ------------------------------------------------------------------ what handler i leaves alone

  /** Only handler `i` moved, and tokens keep their owners. */
  ghost predicate Moves(s: State, s': State, i: nat) {
    && |s'.handlers| == |s.handlers| && i < |s.handlers|
    && s'.clock == s.clock
    && (forall j :: 0 <= j < |s.handlers| && j != i ==> s'.handlers[j] == s.handlers[j])
    && (forall t :: t in s.drawn ==> t in s'.drawn && s'.drawn[t] == s.drawn[t])
  }

  /** What handler `i` has already put on record stays on record. */
  ghost predicate Keeps(h: Handler, h': Handler) {
    && (h.reservation.Some? ==> h'.reservation == h.reservation)
    && (h.claim.Some? ==> h'.claim == h.claim && h'.claimReservedAt == h.claimReservedAt)
    && (h.claimCommittedAt.Some? ==> h'.claimCommittedAt == h.claimCommittedAt)
    && (h.submittedAt.Some? ==> h'.submittedAt == h.submittedAt)
    && (h.rendered.Some? ==> h'.rendered == h.rendered)
    && (h.recordedAt.Some? ==> h'.recordedAt == h.recordedAt)
  }

  lemma OtherHandlers(p: Params, s: State, s': State, i: nat)
    requires |s.handlers| == |p.requests| && Handlers(p, s) && Moves(s, s', i) && HandlerOk(p, s', i)
    ensures Handlers(p, s')
  {
    hide AcceptableInput, CachedProof;
    forall j | 0 <= j < |s'.handlers| ensures HandlerOk(p, s', j) { assert HandlerOk(p, s, j); }
  }

  lemma OtherResults(p: Params, s: State, s': State, i: nat)
    requires |s.handlers| == |p.requests| && Results(p, s) && Moves(s, s', i)
    requires forall k :: k in s'.results.at ==>
               || (k in s.results.at && s'.results.at[k] == s.results.at[k] && s.drawn[s.results.at[k].token] != i)
               || ResultOk(p, s', k)
    requires forall j :: 0 <= j < |s'.handlers| ==> ResultKept(p, s', j)
    ensures Results(p, s')
  {
    forall k | k in s'.results.at ensures ResultOk(p, s', k) {
      if k in s.results.at { assert ResultOk(p, s, k); }
    }
  }

  lemma OtherClaims(p: Params, s: State, s': State, i: nat)
    requires |s.handlers| == |p.requests| && Claims(p, s) && Moves(s, s', i)
    requires forall k :: k in s'.claims.at ==>
               || (k in s.claims.at && s'.claims.at[k] == s.claims.at[k] && s.drawn[s.claims.at[k].token] != i)
               || ClaimOk(p, s', k)
    requires forall j :: 0 <= j < |s'.handlers| ==> ClaimRetained(p, s', j)
    requires forall a, b :: 0 <= a < |s'.handlers| && 0 <= b < |s'.handlers| ==> Apart(p, s', a, b)
    ensures Claims(p, s')
  {
    forall k | k in s'.claims.at ensures ClaimOk(p, s', k) {
      if k in s.claims.at { assert ClaimOk(p, s, k); }
    }
  }

  /** If the result ledger lost nothing but expired entries and what handler `i` aborted, and
      `i`'s reservation and record are as before, the results are still in order. */
  lemma AgedResults(p: Params, s: State, s': State, i: nat)
    requires |s.handlers| == |p.requests| && Handlers(p, s) && Results(p, s) && Moves(s, s', i)
    requires forall k :: k in s'.results.at ==> k in s.results.at && s'.results.at[k] == s.results.at[k]
    requires forall k :: k in s.results.at && s.clock < s.results.at[k].expiresAt ==>
               k in s'.results.at || (Released(s'.handlers[i]) && s.drawn[s.results.at[k].token] == i)
    requires var h, h' := s.handlers[i], s'.handlers[i];
             && h'.reservation == h.reservation && h'.recordedAt == h.recordedAt
             && (h.recordedAt.Some? ==> h'.rendered == h.rendered)
             && (Released(h) ==> Released(h')) && (Released(h') ==> !HoldsResult(p, s', i))
    ensures Results(p, s')
  {
    hide AcceptableInput, CachedProof;
    forall k | k in s'.results.at
      ensures || (k in s.results.at && s'.results.at[k] == s.results.at[k] && s.drawn[s.results.at[k].token] != i)
              || ResultOk(p, s', k)
    {
      assert ResultOk(p, s, k);
    }
    forall j | 0 <= j < |s'.handlers| ensures ResultKept(p, s', j) { KeptOn(p, s, s', i, j); }
    OtherResults(p, s, s', i);
  }

  lemma KeptOn(p: Params, s: State, s': State, i: nat, j: nat)
    requires |s.handlers| == |p.requests| && Handlers(p, s) && Results(p, s) && Moves(s, s', i) && j < |s.handlers|
    requires forall k :: k in s'.results.at ==> k in s.results.at && s'.results.at[k] == s.results.at[k]
    requires forall k :: k in s.results.at && s.clock < s.results.at[k].expiresAt ==>
               k in s'.results.at || (Released(s'.handlers[i]) && s.drawn[s.results.at[k].token] == i)
    requires var h, h' := s.handlers[i], s'.handlers[i];
             && h'.reservation == h.reservation && h'.recordedAt == h.recordedAt && (Released(h) ==> Released(h'))
    ensures ResultKept(p, s', j)
  {
    hide AcceptableInput, CachedProof;
    var k := ResultKey(p.requests[j]);
    assert ResultKept(p, s, j) && HandlerOk(p, s, j);
    if HoldsResult(p, s, j) { assert ResultOk(p, s, k); }
  }

  /** If the claim ledger only aged, and handler `i` neither gained nor committed a claim,
      the claims are still in order. */
  lemma AgedClaims(p: Params, s: State, s': State, i: nat)
    requires |s.handlers| == |p.requests| && Claims(p, s) && Moves(s, s', i)
    requires Ages(s.claims.at, s'.claims.at, s.clock)
    requires var h, h' := s.handlers[i], s'.handlers[i];
             && h'.claim == h.claim && h'.claimReservedAt == h.claimReservedAt
             && h'.claimCommittedAt == h.claimCommittedAt
             && (h'.phase == Ended(Failed) ==> !HoldsClaim(p, s', i))
    ensures Claims(p, s')
  {
    hide AcceptableInput, CachedProof;
    forall k | k in s'.claims.at
      ensures || (k in s.claims.at && s'.claims.at[k] == s.claims.at[k] && s.drawn[s.claims.at[k].token] != i)
              || ClaimOk(p, s', k)
    {
      assert ClaimOk(p, s, k);
    }
    forall j | 0 <= j < |s'.handlers| ensures ClaimRetained(p, s', j) { assert ClaimRetained(p, s, j); }
    forall a, b | 0 <= a < |s'.handlers| && 0 <= b < |s'.handlers| ensures Apart(p, s', a, b) {
      assert Apart(p, s, a, b);
      assert HoldsClaim(p, s', b) ==> HoldsClaim(p, s, b);
    }
    OtherClaims(p, s, s', i);
  }

  lemma OtherReplays(p: Params, s: State, s': State, i: nat)
    requires |s.handlers| == |p.requests| && Replays(p, s) && Moves(s, s', i) && Keeps(s.handlers[i], s'.handlers[i])
    requires ReplayOk(p, s', i)
    ensures Replays(p, s')
  {
    hide AcceptableInput, CachedProof;
    forall a | 0 <= a < |s'.handlers| ensures ReplayOk(p, s', a) {
      assert ReplayOk(p, s, a);
      if a != i && s'.handlers[a].phase.Ended? && s'.handlers[a].phase.ending.Replayed? {
        var j :| 0 <= j < |s.handlers| && ReplayFrom(p, s, a, j);
        assert ReplayFrom(p, s', a, j);
      }
    }
  }

  // ------------------------------------------------------------------ one step

  lemma InitialOk(p: Params)
    ensures Inv(p, Initial(p))
  {
  }

  lemma TickStep(p: Params, s: State, seconds: real)
    requires Inv(p, s) && seconds >= 0.0
    ensures Inv(p, s.(clock := s.clock + seconds))
  {
    hide AcceptableInput, ValidTable;
    var s' := s.(clock := s.clock + seconds);
    forall j | 0 <= j < |s'.handlers| ensures HandlerOk(p, s', j) && ClaimRetained(p, s', j) {
      assert HandlerOk(p, s, j) && ClaimRetained(p, s, j);
    }
    forall k | k in s'.results.at ensures ResultOk(p, s', k) { assert ResultOk(p, s, k); }
    forall j | 0 <= j < |s'.handlers| ensures ResultKept(p, s', j) { assert ResultKept(p, s, j); }
    forall k | k in s'.claims.at ensures ClaimOk(p, s', k) { assert ClaimOk(p, s, k); }
    forall a, b | 0 <= a < |s'.handlers| && 0 <= b < |s'.handlers| ensures Apart(p, s', a, b) { assert Apart(p, s, a, b); }
    forall a | 0 <= a < |s'.handlers| ensures ReplayOk(p, s', a) {
      assert ReplayOk(p, s, a);
      if s'.handlers[a].phase.Ended? && s'.handlers[a].phase.ending.Replayed? {
        var j :| 0 <= j < |s.handlers| && ReplayFrom(p, s, a, j);
        assert ReplayFrom(p, s', a, j);
      }
    }
  }

  /** A step of handler `i` that touches no ledger: checks, answers, submission, cancellation. */
  lemma LocalStep(p: Params, s: State, i: nat, h: Handler)
    requires Inv(p, s) && i < |s.handlers|
    requires Keeps(s.handlers[i], h) && HandlerOk(p, Put(s, i, h), i)
    requires h.reservation == s.handlers[i].reservation && h.recordedAt == s.handlers[i].recordedAt
    requires h.claim == s.handlers[i].claim && h.claimReservedAt == s.handlers[i].claimReservedAt
    requires h.claimCommittedAt == s.handlers[i].claimCommittedAt
    requires !(h.phase.Ended? && h.phase.ending.Replayed?) && !Released(h) && !Released(s.handlers[i])
    ensures Inv(p, Put(s, i, h))
  {
    hide AcceptableInput, ValidTable, CachedProof;
    var s' := Put(s, i, h);
    assert HandlerOk(p, s, i);
    OtherHandlers(p, s, s', i);
    AgedResults(p, s, s', i);
    AgedClaims(p, s, s', i);
    OtherReplays(p, s, s', i);
  }

  lemma AdmissionKeeps(p: Params, s: State, i: nat, token: string, t: Table, o: Outcome)
    requires Inv(p, s) && i < |s.handlers| && s.handlers[i].phase.Idle? && token !in s.drawn
    requires ReserveEffect(RESULTS, s.results, s.clock, ResultKey(p.requests[i]), p.requests[i].fingerprint, token, t, o)
    requires HandlerOk(p, s, i)
    ensures Inv(p, AfterAdmission(p, s, i, token, t, o))
  {
    hide AcceptableInput, ValidTable, Results, Claims, Replays, Handlers;
    var s' := AfterAdmission(p, s, i, token, t, o);
    OtherHandlers(p, s, s', i);
    AgedClaims(p, s, s', i);
    if o.Granted? {
      ResultGranted(p, s, s', i);
    } else {
      AgedResults(p, s, s', i);
    }
    if o.Replay? { ReplayedFrom(p, s, s', i); }
    OtherReplays(p, s, s', i);
  }

  lemma ResultGranted(p: Params, s: State, s': State, i: nat)
    requires Inv(p, s) && Moves(s, s', i) && HandlerOk(p, s', i)
    requires s.handlers[i].reservation.None? && s'.handlers[i].reservation.Some? && s'.handlers[i].phase.Admitted?
    requires var k, r := ResultKey(p.requests[i]), s'.handlers[i].reservation.value;
             && Ages(s.results.at, s'.results.at - {k}, s.clock)
             && k in s'.results.at
             && s'.results.at[k] == ReservedEntry(RESULTS, s.clock, p.requests[i].fingerprint, r.token)
             && (k in s.results.at ==> s.results.at[k].expiresAt <= s.clock)
             && r.expiresAt == s.clock + PROTECTED_RESERVATION_TTL_SECONDS
    ensures Results(p, s')
  {
    hide AcceptableInput, ValidTable, Claims, Replays;
    var key := ResultKey(p.requests[i]);
    forall j | 0 <= j < |s'.handlers| ensures ResultKept(p, s', j) {
      assert ResultKept(p, s, j) && HandlerOk(p, s, j);
      if j != i && HoldsResult(p, s, j) { assert ResultOk(p, s, ResultKey(p.requests[j])); }
      assert ResultKey(p.requests[j]) != key ==> ResultKey(p.requests[j]) in s'.results.at ==> ResultKey(p.requests[j]) in s'.results.at - {key};
    }
    forall k | k in s'.results.at
      ensures || (k in s.results.at && s'.results.at[k] == s.results.at[k] && s.drawn[s.results.at[k].token] != i)
              || ResultOk(p, s', k)
    {
      if k != key { assert k in s'.results.at - {key}; assert ResultOk(p, s, k); }
    }
    OtherResults(p, s, s', i);
  }

  /** A replay comes from the handler whose settlement attempt recorded it. */
  lemma ReplayedFrom(p: Params, s: State, s': State, i: nat)
    requires Inv(p, s) && Moves(s, s', i)
    requires var q, t := p.requests[i], s.results;
             && ResultKey(q) in t.at && t.at[ResultKey(q)].state.Complete? && t.at[ResultKey(q)].fingerprint == q.fingerprint
             && s.clock < t.at[ResultKey(q)].expiresAt
             && s'.handlers[i].phase.Ended?
             && (s'.handlers[i].phase.ending.Replayed? ==>
                   && s'.handlers[i].phase.ending.at == s.clock
                   && t.at[ResultKey(q)].response == Some(s'.handlers[i].phase.ending.response)
                   && var proof := CachedProof(t.at[ResultKey(q)].response.value.headers);
                      proof.None? || proof.value == q.proofFingerprint)
    requires s.handlers[i].reservation.None?
    ensures ReplayOk(p, s', i)
  {
    hide AcceptableInput, CachedProof;
    var q := p.requests[i];
    assert ResultOk(p, s, ResultKey(q));
    var j := s.drawn[s.results.at[ResultKey(q)].token];
    assert HandlerOk(p, s, j);
    if s'.handlers[i].phase.ending.Replayed? { assert ReplayFrom(p, s', i, j); }
  }

  lemma ReserveClaimKeeps(p: Params, s: State, i: nat, token: string, t: Table, o: Outcome)
    requires Inv(p, s) && i < |s.handlers| && s.handlers[i].phase.Verified? && token !in s.drawn
    requires ReserveEffect(CLAIMS, s.claims, s.clock, ClaimKey(p.requests[i]), p.requests[i].fingerprint, token, t, o)
    requires HandlerOk(p, s, i)
    ensures Inv(p, AfterReserveClaim(s, i, token, t, o))
  {
    hide AcceptableInput, ValidTable, Results, Claims, Replays, Handlers;
    var s' := AfterReserveClaim(s, i, token, t, o);
    OtherHandlers(p, s, s', i);
    AgedResults(p, s, s', i);
    OtherReplays(p, s, s', i);
    if o.Granted? {
      ClaimGranted(p, s, s', i);
    } else {
      AgedClaims(p, s, s', i);
    }
  }

  /** A freshly granted claim: every claim committed on that authorization has expired. */
  lemma ClaimGranted(p: Params, s: State, s': State, i: nat)
    requires Inv(p, s) && Moves(s, s', i) && HandlerOk(p, s, i) && HandlerOk(p, s', i)
    requires s.handlers[i].claim.None? && s'.handlers[i].claim.Some? && s'.handlers[i].phase.Binding?
    requires s'.handlers[i].claimReservedAt == Some(s.clock) && s'.handlers[i].claimCommittedAt.None?
    requires var k, r := ClaimKey(p.requests[i]), s'.handlers[i].claim.value;
             && r.token !in s.drawn
             && Ages(s.claims.at, s'.claims.at - {k}, s.clock)
             && (k in s.claims.at ==> s.claims.at[k].expiresAt <= s.clock)
             && k in s'.claims.at
             && s'.claims.at[k] == ReservedEntry(CLAIMS, s.clock, p.requests[i].fingerprint, r.token)
    ensures Claims(p, s')
  {
    hide AcceptableInput, ValidTable, Results, Replays;
    var key := ClaimKey(p.requests[i]);
    forall k | k in s'.claims.at
      ensures || (k in s.claims.at && s'.claims.at[k] == s.claims.at[k] && s.drawn[s.claims.at[k].token] != i)
              || ClaimOk(p, s', k)
    {
      if k != key { assert ClaimOk(p, s, k); }
    }
    forall j | 0 <= j < |s'.handlers| ensures ClaimRetained(p, s', j) { assert ClaimRetained(p, s, j); }
    forall a, b | 0 <= a < |s'.handlers| && 0 <= b < |s'.handlers| ensures Apart(p, s', a, b) {
      assert Apart(p, s, a, b) && ClaimRetained(p, s, a);
      assert HandlerOk(p, s, a) && HandlerOk(p, s, b);
      if b != i && HoldsClaim(p, s', b) { assert ClaimKey(p.requests[b]) != key; assert HoldsClaim(p, s, b); }
    }
    OtherClaims(p, s, s', i);
  }

  lemma CommitClaimKeeps(p: Params, s: State, i: nat, t: Table, o: Outcome)
    requires Inv(p, s) && i < |s.handlers| && s.handlers[i].phase.Bound? && s.handlers[i].claim.Some?
    requires CommitEffect(CLAIMS, s.claims, s.clock, s.handlers[i].claim.value, TOMBSTONE, t, o)
    requires HandlerOk(p, s, i)
    ensures Inv(p, AfterCommitClaim(s, i, t, o))
  {
    hide AcceptableInput, ValidTable, Results, Claims, Replays, Handlers;
    var s' := AfterCommitClaim(s, i, t, o);
    OtherHandlers(p, s, s', i);
    AgedResults(p, s, s', i);
    OtherReplays(p, s, s', i);
    if o.Committed? {
      ClaimCommitted(p, s, s', i);
    } else {
      AgedClaims(p, s, s', i);
    }
  }

  lemma ClaimCommitted(p: Params, s: State, s': State, i: nat)
    requires Inv(p, s) && Moves(s, s', i)
    requires s.handlers[i].claim.Some? && s.handlers[i].claimCommittedAt.None? && Owns(s.claims, s.handlers[i].claim.value)
    requires s'.handlers[i] == s.handlers[i].(phase := Claimed, claimCommittedAt := Some(s.clock))
    requires var k := ClaimKey(p.requests[i]);
             && s.handlers[i].claim.value.key == k && k in s'.claims.at
             && Ages(s.claims.at - {k}, s'.claims.at - {k}, s.clock)
             && s'.claims.at[k] == CompletedEntry(CLAIMS, s.clock, s.claims.at[k], TOMBSTONE)
    ensures Claims(p, s')
  {
    hide AcceptableInput, ValidTable, Results, Replays;
    var key := ClaimKey(p.requests[i]);
    assert HandlerOk(p, s, i) && ClaimOk(p, s, key);
    forall k | k in s'.claims.at
      ensures || (k in s.claims.at && s'.claims.at[k] == s.claims.at[k] && s.drawn[s.claims.at[k].token] != i)
              || ClaimOk(p, s', k)
    {
      if k != key { assert k in s'.claims.at - {key}; assert ClaimOk(p, s, k); }
    }
    forall j | 0 <= j < |s'.handlers| ensures ClaimRetained(p, s', j) {
      assert ClaimRetained(p, s, j) && HandlerOk(p, s, j);
      var k := ClaimKey(p.requests[j]);
      assert k != key && k in s.claims.at ==> k in s.claims.at - {key};
    }
    forall a, b | 0 <= a < |s'.handlers| && 0 <= b < |s'.handlers| ensures Apart(p, s', a, b) {
      assert Apart(p, s, a, b) && Apart(p, s, b, a);
      assert HandlerOk(p, s, a) && HandlerOk(p, s, b);
      assert ClaimKey(p.requests[b]) != key ==> HoldsClaim(p, s', b) ==> ClaimKey(p.requests[b]) in s'.claims.at - {key};
      assert HoldsClaim(p, s', b) ==> HoldsClaim(p, s, b);
      assert HoldsClaim(p, s, i);
    }
    OtherClaims(p, s, s', i);
  }

  lemma RecordKeeps(p: Params, s: State, i: nat, t: Table, o: Outcome)
    requires Inv(p, s) && i < |s.handlers| && s.handlers[i].phase.Settled? && s.handlers[i].rendered.Some?
    requires s.handlers[i].reservation.Some?
    requires CommitEffect(RESULTS, s.results, s.clock, s.handlers[i].reservation.value, s.handlers[i].rendered.value, t, o)
    requires HandlerOk(p, s, i)
    requires o.Committed? ==> ResultKey(p.requests[i]) in s.results.at && ResultOk(p, s, ResultKey(p.requests[i]))
    ensures Inv(p, AfterRecord(s, i, t, o))
  {
    hide AcceptableInput, ValidTable, Results, Claims, Replays, Handlers;
    var s' := AfterRecord(s, i, t, o);
    OtherHandlers(p, s, s', i);
    AgedClaims(p, s, s', i);
    OtherReplays(p, s, s', i);
    if o.Committed? {
      ResultRecorded(p, s, s', i);
    } else {
      AgedResults(p, s, s', i);
    }
  }

  lemma OwnResult(p: Params, s: State, i: nat, t: Table, o: Outcome)
    requires |s.handlers| == |p.requests| && Results(p, s) && i < |s.handlers| && HandlerOk(p, s, i)
    requires s.handlers[i].phase.Settled? && s.handlers[i].rendered.Some? && s.handlers[i].reservation.Some?
    requires CommitEffect(RESULTS, s.results, s.clock, s.handlers[i].reservation.value, s.handlers[i].rendered.value, t, o)
    requires o.Committed?
    ensures ResultKey(p.requests[i]) in s.results.at && ResultOk(p, s, ResultKey(p.requests[i]))
  {
    hide AcceptableInput, CachedProof;
  }

  lemma ResultRecorded(p: Params, s: State, s': State, i: nat)
    requires Inv(p, s) && Moves(s, s', i) && HandlerOk(p, s, i)
    requires s.handlers[i].reservation.Some? && s.handlers[i].phase.Settled? && s.handlers[i].rendered.Some?
    requires Owns(s.results, s.handlers[i].reservation.value)
    requires s'.handlers[i] == s.handlers[i].(phase := Ended(Finished), recordedAt := Some(s.clock))
    requires var k := ResultKey(p.requests[i]);
             && k in s'.results.at
             && Ages(s.results.at - {k}, s'.results.at - {k}, s.clock)
             && s'.results.at[k] == CompletedEntry(RESULTS, s.clock, s.results.at[k], s.handlers[i].rendered.value)
    ensures Results(p, s')
  {
    hide AcceptableInput, ValidTable, Claims, Replays;
    var key := ResultKey(p.requests[i]);
    forall k | k in s'.results.at
      ensures || (k in s.results.at && s'.results.at[k] == s.results.at[k] && s.drawn[s.results.at[k].token] != i)
              || ResultOk(p, s', k)
    {
      if k != key { assert k in s'.results.at - {key}; }
      assert k in s.results.at && ResultOk(p, s, k);
    }
    forall j | 0 <= j < |s'.handlers| ensures ResultKept(p, s', j) {
      var k := ResultKey(p.requests[j]);
      assert ResultKept(p, s, j) && HandlerOk(p, s, j);
      if HoldsResult(p, s, j) { assert ResultOk(p, s, k); }
      assert k != key && k in s.results.at ==> k in s.results.at - {key};
      assert k != key && k in s'.results.at ==> k in s'.results.at - {key};
    }
    OtherResults(p, s, s', i);
  }

  lemma AbortResultKeeps(p: Params, s: State, i: nat, t: Table)
    requires Inv(p, s) && i < |s.handlers| && s.handlers[i].phase.Unwinding? && s.handlers[i].reservation.Some?
    requires AbortEffect(RESULTS, s.results, s.clock, s.handlers[i].reservation.value, t)
    requires HandlerOk(p, s, i)
    ensures Inv(p, AfterAbortResult(s, i, t))
  {
    hide AcceptableInput, ValidTable, Results, Claims, Replays, Handlers;
    var s' := AfterAbortResult(s, i, t);
    OtherHandlers(p, s, s', i);
    NoResultLeft(p, s, s', i);
    AgedResults(p, s, s', i);
    AgedClaims(p, s, s', i);
    OtherReplays(p, s, s', i);
  }

  lemma NoResultLeft(p: Params, s: State, s': State, i: nat)
    requires |s.handlers| == |p.requests| && Results(p, s) && Moves(s, s', i) && HandlerOk(p, s, i)
    requires s.handlers[i].reservation.Some? && s.handlers[i].recordedAt.None?
    requires s'.handlers[i].reservation == s.handlers[i].reservation
    requires AbortEffect(RESULTS, s.results, s.clock, s.handlers[i].reservation.value, s'.results)
    ensures !HoldsResult(p, s', i)
  {
    hide AcceptableInput, CachedProof;
    var k := ResultKey(p.requests[i]);
    if k in s'.results.at { assert ResultOk(p, s, k); }
  }

  lemma AbortClaimKeeps(p: Params, s: State, i: nat, t: Table)
    requires Inv(p, s) && i < |s.handlers| && s.handlers[i].phase.UnwindingClaim? && s.handlers[i].claim.Some?
    requires AbortEffect(CLAIMS, s.claims, s.clock, s.handlers[i].claim.value, t)
    requires HandlerOk(p, s, i)
    ensures Inv(p, AfterAbortClaim(s, i, t))
  {
    hide AcceptableInput, ValidTable, Results, Claims, Replays, Handlers;
    var s' := AfterAbortClaim(s, i, t);
    OtherHandlers(p, s, s', i);
    NoResultYet(p, s, s', i);
    AgedResults(p, s, s', i);
    OtherReplays(p, s, s', i);
    ClaimAborted(p, s, s', i);
  }

  lemma NoResultYet(p: Params, s: State, s': State, i: nat)
    requires |s.handlers| == |p.requests| && Results(p, s) && Moves(s, s', i) && HandlerOk(p, s, i)
    requires s.handlers[i].phase.UnwindingClaim? && s'.results == s.results
    requires s'.handlers[i].reservation == s.handlers[i].reservation
    ensures !HoldsResult(p, s', i)
  {
    hide AcceptableInput, CachedProof;
    var k := ResultKey(p.requests[i]);
    if k in s.results.at { assert ResultOk(p, s, k); }
  }

  lemma ClaimAborted(p: Params, s: State, s': State, i: nat)
    requires Inv(p, s) && Moves(s, s', i) && HandlerOk(p, s, i)
    requires s.handlers[i].claim.Some? && s.handlers[i].claimCommittedAt.None?
    requires s'.handlers[i] == s.handlers[i].(phase := Ended(Failed))
    requires AbortEffect(CLAIMS, s.claims, s.clock, s.handlers[i].claim.value, s'.claims)
    ensures Claims(p, s')
  {
    hide AcceptableInput, ValidTable, Results, Replays;
    var key := ClaimKey(p.requests[i]);
    forall k | k in s'.claims.at
      ensures k in s.claims.at && s'.claims.at[k] == s.claims.at[k] && s.drawn[s.claims.at[k].token] != i
    {
      assert ClaimOk(p, s, k);
    }
    forall j | 0 <= j < |s'.handlers| ensures ClaimRetained(p, s', j) {
      assert ClaimRetained(p, s, j) && HandlerOk(p, s, j);
      if key in s.claims.at { assert ClaimOk(p, s, key); }
    }
    forall a, b | 0 <= a < |s'.handlers| && 0 <= b < |s'.handlers| ensures Apart(p, s', a, b) {
      assert Apart(p, s, a, b);
      assert HoldsClaim(p, s', b) ==> HoldsClaim(p, s, b);
    }
    OtherClaims(p, s, s', i);
  }

  lemma SettleAnswerOk(q: Request, body: seq<Byte>, settlement: Settlement)
    ensures CachedProof(ResultResponse(q, body, settlement).headers) == Some(q.proofFingerprint)
  {
    var hs := ResultResponse(q, body, settlement).headers;
    var n := |hs|;
    if hs[n - 1].name != PROOF_HEADER {
      assert hs[..n - 1][n - 2] == Header(PROOF_HEADER, q.proofFingerprint);
      assert CachedProof(hs) == CachedProof(hs[..n - 1]);
    }
  }

  /** Every step keeps the invariant. */
  lemma StepKeeps(p: Params, s: State, step: Step)
    requires Inv(p, s)
    ensures Inv(p, Next(p, s, step))
  {
    hide AcceptableInput, ValidTable, Handlers, Results, Claims, Replays, Reserve, Commit, Abort;
    if Enabled(s, step) {
      if step.Tick? {
        TickStep(p, s, step.seconds);
      } else {
        LedgerKeeps(p, s, step);
      }
    }
  }

  lemma LedgerKeeps(p: Params, s: State, step: Step)
    requires Inv(p, s) && Enabled(s, step) && !step.Tick?
    ensures Inv(p, Next(p, s, step))
  {
    hide AcceptableInput, ValidTable, Reserve, Commit, Abort, ReserveEffect, CommitEffect, AbortEffect;
    var h, q := s.handlers[step.i], p.requests[step.i];
    assert HandlerOk(p, s, step.i);
    hide Handlers, Results, Claims, Replays;
    match step
    case Admission(i, token) =>
      var (t, o) := Reserve(RESULTS, s.results, s.clock, ResultKey(q), q.fingerprint, token);
      ReserveHas(RESULTS, s.results, s.clock, ResultKey(q), q.fingerprint, token);
      AdmissionKeeps(p, s, i, token, t, o);
    case ReserveClaim(i, token) =>
      var (t, o) := Reserve(CLAIMS, s.claims, s.clock, ClaimKey(q), q.fingerprint, token);
      ReserveHas(CLAIMS, s.claims, s.clock, ClaimKey(q), q.fingerprint, token);
      ReserveClaimKeeps(p, s, i, token, t, o);
    case CommitClaim(i) =>
      var (t, o) := Commit(CLAIMS, s.claims, s.clock, h.claim.value, TOMBSTONE);
      CommitHas(CLAIMS, s.claims, s.clock, h.claim.value, TOMBSTONE);
      CommitClaimKeeps(p, s, i, t, o);
    case RecordResult(i) =>
      if h.rendered.None? {
        LocalStep(p, s, i, h.(phase := Ended(Finished)));
      } else {
        var (t, o) := Commit(RESULTS, s.results, s.clock, h.reservation.value, h.rendered.value);
        CommitHas(RESULTS, s.results, s.clock, h.reservation.value, h.rendered.value);
        if o.Committed? { OwnResult(p, s, i, t, o); }
        RecordKeeps(p, s, i, t, o);
      }
    case AbortResult(i) =>
      AbortHas(RESULTS, s.results, s.clock, h.reservation.value);
      AbortResultKeeps(p, s, i, Abort(s.results, s.clock, h.reservation.value).0);
    case AbortClaim(i) =>
      AbortHas(CLAIMS, s.claims, s.clock, h.claim.value);
      AbortClaimKeeps(p, s, i, Abort(s.claims, s.clock, h.claim.value).0);
    case _ => LocalKeeps(p, s, step);
  }

  /** What a step that touches no ledger leaves of a handler's record. */
  ghost predicate Moderate(h: Handler, h': Handler) {
    && Keeps(h, h') && !Released(h) && !Released(h')
    && h'.reservation == h.reservation && h'.recordedAt == h.recordedAt
    && h'.claim == h.claim && h'.claimReservedAt == h.claimReservedAt && h'.claimCommittedAt == h.claimCommittedAt
    && !(h'.phase.Ended? && h'.phase.ending.Replayed?)
  }

  lemma OnLocalOk(p: Params, s: State, step: Step)
    requires |s.handlers| == |p.requests| && Local(step) && Enabled(s, step) && HandlerOk(p, s, step.i)
    ensures var h' := OnLocal(p, p.requests[step.i], s.handlers[step.i], step, s.clock);
            Moderate(s.handlers[step.i], h') && HandlerOk(p, Put(s, step.i, h'), step.i)
  {
    hide HandlerOk, OnLocal, Moderate;
    if step.LocalCheck? {
      CheckOk(p, s, step.i, step.ok);
    } else if step.SettleAnswer? {
      SettledOk(p, s, step.i, step.settlement);
    } else {
      AnswerOk(p, s, step);
    }
  }

  lemma SettledOk(p: Params, s: State, i: nat, settlement: Settlement)
    requires |s.handlers| == |p.requests| && Enabled(s, SettleAnswer(i, settlement)) && HandlerOk(p, s, i)
    ensures var h' := OnLocal(p, p.requests[i], s.handlers[i], SettleAnswer(i, settlement), s.clock);
            Moderate(s.handlers[i], h') && HandlerOk(p, Put(s, i, h'), i)
  {
    hide AcceptableInput, CachedProof, ResultResponse, Cacheable;
    SettleAnswerOk(p.requests[i], s.handlers[i].body, settlement);
  }

  lemma AnswerOk(p: Params, s: State, step: Step)
    requires step.VerifyAnswer? || step.BindAnswer? || step.Submit? || step.Cancel?
    requires |s.handlers| == |p.requests| && Enabled(s, step) && HandlerOk(p, s, step.i)
    ensures var h' := OnLocal(p, p.requests[step.i], s.handlers[step.i], step, s.clock);
            Moderate(s.handlers[step.i], h') && HandlerOk(p, Put(s, step.i, h'), step.i)
  {
    hide AcceptableInput, CachedProof, ResultResponse, Cacheable, InWindow;
  }

  lemma CheckOk(p: Params, s: State, i: nat, ok: bool)
    requires |s.handlers| == |p.requests| && Enabled(s, LocalCheck(i, ok)) && HandlerOk(p, s, i)
    ensures var h' := OnLocal(p, p.requests[i], s.handlers[i], LocalCheck(i, ok), s.clock);
            Moderate(s.handlers[i], h') && HandlerOk(p, Put(s, i, h'), i)
  {
    hide AcceptableInput, CachedProof;
  }

  lemma LocalKeeps(p: Params, s: State, step: Step)
    requires Inv(p, s) && Enabled(s, step) && Local(step)
    ensures Inv(p, Next(p, s, step))
  {
    assert HandlerOk(p, s, step.i);
    OnLocalOk(p, s, step);
    hide HandlerOk, ValidTable, OnLocal, Handlers, Results, Claims, Replays;
    LocalStep(p, s, step.i, OnLocal(p, p.requests[step.i], s.handlers[step.i], step, s.clock));
  }

  /** The invariant holds in every reachable state. */
  lemma {:induction false} Reachable(p: Params, run: Run)
    ensures Inv(p, At(p, run))
  {
    match run
    case Start => InitialOk(p);
    case Then(before, step) =>
      Reachable(p, before);
      StepKeeps(p, At(p, before), step);
  }
}

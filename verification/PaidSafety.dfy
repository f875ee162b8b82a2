/** Safety of the paid protocol over every run. */
module PaidSafety {
  import opened Basics
  import opened Ledger
  import opened LedgerLaws
  import opened Orders
  import opened PaidProtocol
  import opened PaidInvariant

  // ------------------------------------------------------------------ write-ahead

  /** Every submitted settlement was preceded by its committed claim, and in every reachable
      state that claim is in the ledger, complete, until its time to live has passed. */
  lemma WriteAhead(p: Params, run: Run, i: nat)
    requires i < |At(p, run).handlers| && At(p, run).handlers[i].submittedAt.Some?
    ensures |At(p, run).handlers| == |p.requests|
    ensures var s := At(p, run);
            var h, k := s.handlers[i], ClaimKey(p.requests[i]);
            && h.claim.Some? && h.claimCommittedAt.Some?
            && h.claimCommittedAt.value <= h.submittedAt.value <= s.clock
            && (s.clock < h.claimCommittedAt.value + PAYMENT_CLAIM_TTL_SECONDS ==>
                  && k in s.claims.at && s.claims.at[k].state.Complete?
                  && s.claims.at[k].token == h.claim.value.token)
  {
    Reachable(p, run);
    assert HandlerOk(p, At(p, run), i) && ClaimRetained(p, At(p, run), i);
  }

  /** While a committed claim is unexpired, no other request can take or replace it: a reserve
      on that authorization answers with the tombstone or with a conflict. */
  lemma ClaimBlocksReserve(p: Params, run: Run, i: nat, j: nat, token: string)
    requires var s := At(p, run);
             && i < |s.handlers| == |p.requests| && j < |p.requests|
             && p.requests[i].authorization == p.requests[j].authorization
             && s.handlers[i].claimCommittedAt.Some?
             && s.clock < s.handlers[i].claimCommittedAt.value + PAYMENT_CLAIM_TTL_SECONDS
    ensures var s := At(p, run);
            !Reserve(CLAIMS, s.claims, s.clock, ClaimKey(p.requests[j]), p.requests[j].fingerprint, token).1.Granted?
  {
    var s := At(p, run);
    Reachable(p, run);
    assert ClaimRetained(p, s, i);
    ReserveHas(CLAIMS, s.claims, s.clock, ClaimKey(p.requests[j]), p.requests[j].fingerprint, token);
  }

  /** A handler submits at most once: its submission stays on record, and it can never submit
      again, over any continuation. */
  lemma {:induction false} SubmitsOnce(p: Params, run: Run, steps: seq<Step>, i: nat)
    requires i < |At(p, run).handlers| && At(p, run).handlers[i].submittedAt.Some?
    ensures var s := At(p, Continue(run, steps));
            && i < |s.handlers| && s.handlers[i].submittedAt == At(p, run).handlers[i].submittedAt
            && !Enabled(s, Submit(i))
  {
    hide Next;
    if steps != [] {
      var n := |steps| - 1;
      SubmitsOnce(p, run, steps[..n], i);
      Reachable(p, Continue(run, steps[..n]));
      assert HandlerOk(p, At(p, Continue(run, steps[..n])), i);
      SubmittedStays(p, At(p, Continue(run, steps[..n])), steps[n], i);
    }
    NotAgain(p, Continue(run, steps), i);
  }

  lemma NotAgain(p: Params, run: Run, i: nat)
    requires i < |At(p, run).handlers| && At(p, run).handlers[i].submittedAt.Some?
    ensures !Enabled(At(p, run), Submit(i))
  {
    hide At, ValidTable, Results, Claims, Replays, AcceptableInput;
    Reachable(p, run);
    assert HandlerOk(p, At(p, run), i);
  }

  function Continue(run: Run, steps: seq<Step>): Run {
    if steps == [] then run else Then(Continue(run, steps[..|steps| - 1]), steps[|steps| - 1])
  }

  lemma SubmittedStays(p: Params, s: State, step: Step, i: nat)
    requires |s.handlers| == |p.requests| && i < |s.handlers| && PhaseOk(s.handlers[i])
    requires s.handlers[i].submittedAt.Some?
    ensures |Next(p, s, step).handlers| == |s.handlers|
    ensures Next(p, s, step).handlers[i].submittedAt == s.handlers[i].submittedAt
  {
    hide Reserve, Commit, Abort;
  }

  /** A request that ended uncancelled before submitting owns no entry of either ledger. */
  lemma NothingLeftBehind(p: Params, run: Run, i: nat)
    requires var s := At(p, run);
             && i < |s.handlers| && s.handlers[i].phase.Ended?
             && s.handlers[i].submittedAt.None? && s.handlers[i].phase.ending != Cancelled
    ensures var s := At(p, run);
            && (forall k :: k in s.results.at ==> s.results.at[k].token in s.drawn && s.drawn[s.results.at[k].token] != i)
            && (forall k :: k in s.claims.at ==> s.claims.at[k].token in s.drawn && s.drawn[s.claims.at[k].token] != i)
  {
    hide At, ValidTable, Replays;
    Reachable(p, run);
    OwnsNothing(p, At(p, run), i);
  }

  lemma OwnsNothing(p: Params, s: State, i: nat)
    requires |s.handlers| == |p.requests| && Results(p, s) && Claims(p, s) && i < |s.handlers| && Handlers(p, s)
    requires s.handlers[i].phase.Ended? && s.handlers[i].submittedAt.None? && s.handlers[i].phase.ending != Cancelled
    ensures (forall k :: k in s.results.at ==> s.results.at[k].token in s.drawn && s.drawn[s.results.at[k].token] != i)
    ensures (forall k :: k in s.claims.at ==> s.claims.at[k].token in s.drawn && s.drawn[s.claims.at[k].token] != i)
  {
    assert HandlerOk(p, s, i);
    forall k | k in s.results.at ensures s.results.at[k].token in s.drawn && s.drawn[s.results.at[k].token] != i {
      assert ResultOk(p, s, k);
    }
    forall k | k in s.claims.at ensures s.claims.at[k].token in s.drawn && s.drawn[s.claims.at[k].token] != i {
      assert ClaimOk(p, s, k);
    }
  }

  /** Between two ledger states, entries that handler `i` did not draw neither change nor
      appear, and disappear only by expiring. */
  ghost predicate OthersKept(t: Table, t': Table, now: real, drawn: map<string, nat>, drawn': map<string, nat>, i: nat) {
    && (forall k :: k in t.at && t.at[k].token in drawn && drawn[t.at[k].token] != i && now < t.at[k].expiresAt ==>
          k in t'.at && t'.at[k] == t.at[k])
    && (forall k :: k in t'.at && t'.at[k].token in drawn' && drawn'[t'.at[k].token] != i ==>
          k in t.at && t'.at[k] == t.at[k])
  }

  /** A table gains or loses, besides what expires, at most the entry at `k`. */
  ghost predicate OnlyAt(at: map<Key, Entry>, at': map<Key, Entry>, k: Key, now: real) {
    forall q :: q != k ==>
      && (q in at' ==> q in at && at'[q] == at[q])
      && (q in at && now < at[q].expiresAt ==> q in at')
  }

  /** A step that changes at most the entry at `k`, which is handler `i`'s before and after
      unless it merely expired or stayed, keeps the entries of the others. */
  lemma OnlyAtKeeps(t: Table, t': Table, k: Key, now: real, drawn: map<string, nat>, drawn': map<string, nat>, i: nat)
    requires OnlyAt(t.at, t'.at, k, now)
    requires k in t.at && now < t.at[k].expiresAt ==>
               (k in t'.at && t'.at[k] == t.at[k]) || (t.at[k].token in drawn && drawn[t.at[k].token] == i)
    requires k in t'.at ==>
               (k in t.at && t'.at[k] == t.at[k]) || (t'.at[k].token in drawn' && drawn'[t'.at[k].token] == i)
    ensures OthersKept(t, t', now, drawn, drawn', i)
  {
  }

  lemma AgesOnlyAt(at: map<Key, Entry>, at': map<Key, Entry>, k: Key, now: real)
    requires Ages(at, at', now) || Ages(at, at' - {k}, now) || Ages(at - {k}, at' - {k}, now) || Ages(at - {k}, at', now)
    ensures OnlyAt(at, at', k, now)
  {
    forall q | q != k
      ensures (q in at' ==> q in at && at'[q] == at[q]) && (q in at && now < at[q].expiresAt ==> q in at')
    {
      assert q in at ==> q in at - {k} && (at - {k})[q] == at[q];
      assert q in at' ==> q in at' - {k} && (at' - {k})[q] == at'[q];
    }
  }

  lemma ReserveTouches(c: Config, t: Table, now: real, k: Key, f: string, token: string, drawn: map<string, nat>, i: nat)
    requires ValidConfig(c) && !c.evict && ValidTable(c, t)
    ensures OthersKept(t, Reserve(c, t, now, k, f, token).0, now, drawn, drawn[token := i], i)
  {
    ReserveHas(c, t, now, k, f, token);
    hide Reserve, ValidTable, OnlyAt;
    var t' := Reserve(c, t, now, k, f, token).0;
    AgesOnlyAt(t.at, t'.at, k, now);
    OnlyAtKeeps(t, t', k, now, drawn, drawn[token := i], i);
  }

  lemma CommitTouches(c: Config, t: Table, now: real, r: Reservation, response: Response, drawn: map<string, nat>, i: nat)
    requires ValidConfig(c) && !c.evict && ValidTable(c, t) && r.token in drawn && drawn[r.token] == i
    ensures OthersKept(t, Commit(c, t, now, r, response).0, now, drawn, drawn, i)
  {
    CommitHas(c, t, now, r, response);
    hide Commit, ValidTable, OnlyAt, Size;
    var t' := Commit(c, t, now, r, response).0;
    AgesOnlyAt(t.at, t'.at, r.key, now);
    OnlyAtKeeps(t, t', r.key, now, drawn, drawn, i);
  }

  lemma AbortTouches(c: Config, t: Table, now: real, r: Reservation, drawn: map<string, nat>, i: nat)
    requires ValidTable(c, t) && r.token in drawn && drawn[r.token] == i
    ensures OthersKept(t, Abort(t, now, r).0, now, drawn, drawn, i)
  {
    AbortHas(c, t, now, r);
    hide Abort, ValidTable, OnlyAt;
    var t' := Abort(t, now, r).0;
    AgesOnlyAt(t.at, t'.at, r.key, now);
    OnlyAtKeeps(t, t', r.key, now, drawn, drawn, i);
  }

  /** Whatever a handler does, it touches only its own entries, apart from expiries. */
  lemma TouchesOnlyOwn(p: Params, run: Run, step: Step)
    requires !step.Tick?
    ensures var s := At(p, run);
            var s' := Next(p, s, step);
            && OthersKept(s.results, s'.results, s.clock, s.drawn, s'.drawn, step.i)
            && OthersKept(s.claims, s'.claims, s.clock, s.drawn, s'.drawn, step.i)
  {
    var s := At(p, run);
    Reachable(p, run);
    hide At, ValidTable, Results, Claims, Replays, Reserve, Commit, Abort;
    if Enabled(s, step) {
      TokensDrawn(p, s);
      if step.Admission? || step.ReserveClaim? {
        ReserveTouchesOwn(p, s, step);
      } else {
        assert HandlerOk(p, s, step.i);
        hide Handlers;
        LedgerTouchesOwn(p, s, step);
      }
    }
  }

  ghost predicate AllDrawn(s: State) {
    && (forall k :: k in s.results.at ==> s.results.at[k].token in s.drawn)
    && (forall k :: k in s.claims.at ==> s.claims.at[k].token in s.drawn)
  }

  lemma TokensDrawn(p: Params, s: State)
    requires Inv(p, s)
    ensures AllDrawn(s)
  {
    forall k | k in s.results.at ensures s.results.at[k].token in s.drawn { assert ResultOk(p, s, k); }
    forall k | k in s.claims.at ensures s.claims.at[k].token in s.drawn { assert ClaimOk(p, s, k); }
  }

  lemma ReserveTouchesOwn(p: Params, s: State, step: Step)
    requires |s.handlers| == |p.requests| && ValidTable(RESULTS, s.results) && ValidTable(CLAIMS, s.claims)
    requires Enabled(s, step) && AllDrawn(s) && (step.Admission? || step.ReserveClaim?)
    ensures var s' := Next(p, s, step);
            && OthersKept(s.results, s'.results, s.clock, s.drawn, s'.drawn, step.i)
            && OthersKept(s.claims, s'.claims, s.clock, s.drawn, s'.drawn, step.i)
  {
    hide Reserve, ValidTable, CachedProof;
    var q := p.requests[step.i];
    match step
    case Admission(i, token) => ReserveTouches(RESULTS, s.results, s.clock, ResultKey(q), q.fingerprint, token, s.drawn, i);
    case ReserveClaim(i, token) => ReserveTouches(CLAIMS, s.claims, s.clock, ClaimKey(q), q.fingerprint, token, s.drawn, i);
  }

  lemma LedgerTouchesOwn(p: Params, s: State, step: Step)
    requires |s.handlers| == |p.requests| && ValidTable(RESULTS, s.results) && ValidTable(CLAIMS, s.claims)
    requires !step.Tick? && !step.Admission? && !step.ReserveClaim? && Enabled(s, step) && HandlerOk(p, s, step.i)
    ensures var s' := Next(p, s, step);
            && OthersKept(s.results, s'.results, s.clock, s.drawn, s'.drawn, step.i)
            && OthersKept(s.claims, s'.claims, s.clock, s.drawn, s'.drawn, step.i)
  {
    hide Commit, Abort, ValidTable, CachedProof, ResultResponse, Cacheable;
    var h := s.handlers[step.i];
    if step.CommitClaim? {
      CommitTouches(CLAIMS, s.claims, s.clock, h.claim.value, TOMBSTONE, s.drawn, step.i);
    } else if step.RecordResult? && h.rendered.Some? {
      CommitTouches(RESULTS, s.results, s.clock, h.reservation.value, h.rendered.value, s.drawn, step.i);
    } else if step.AbortResult? {
      AbortTouches(RESULTS, s.results, s.clock, h.reservation.value, s.drawn, step.i);
    } else if step.AbortClaim? {
      AbortTouches(CLAIMS, s.claims, s.clock, h.claim.value, s.drawn, step.i);
    }
  }

  // ------------------------------------------------------------------ a request that fails leaves no trace

  /** Every entry's token was drawn, and none by handler `i`. */
  ghost predicate NoneOf(t: Table, drawn: map<string, nat>, i: nat) {
    forall k :: k in t.at ==> t.at[k].token in drawn && drawn[t.at[k].token] != i
  }

  ghost predicate Extends(drawn: map<string, nat>, drawn': map<string, nat>) {
    forall t :: t in drawn ==> t in drawn' && drawn'[t] == drawn[t]
  }

  /** What others had in the table and has not expired is still there, and nothing of others is new. */
  ghost predicate OthersStay(t: Table, t': Table, now: real, drawn': map<string, nat>, i: nat) {
    && (forall k :: k in t.at && now < t.at[k].expiresAt ==> k in t'.at && t'.at[k] == t.at[k])
    && (forall k :: k in t'.at && t'.at[k].token in drawn' && drawn'[t'.at[k].token] != i ==>
          k in t.at && t'.at[k] == t.at[k])
  }

  lemma StayOn(t: Table, t': Table, t'': Table, now: real, drawn: map<string, nat>, drawn': map<string, nat>,
               drawn'': map<string, nat>, i: nat)
    requires NoneOf(t, drawn, i) && OthersStay(t, t', now, drawn', i) && OthersKept(t', t'', now, drawn', drawn'', i)
    requires Extends(drawn, drawn') && Extends(drawn', drawn'') && forall k :: k in t'.at ==> t'.at[k].token in drawn'
    ensures OthersStay(t, t'', now, drawn'', i)
  {
  }

  lemma DrawnExtends(p: Params, s: State, step: Step)
    ensures Extends(s.drawn, Next(p, s, step).drawn) && Next(p, s, step).clock >= s.clock
    ensures !step.Tick? ==> Next(p, s, step).clock == s.clock
    ensures step.Tick? ==> Next(p, s, step).results == s.results && Next(p, s, step).claims == s.claims
                           && Next(p, s, step).drawn == s.drawn
  {
    hide Reserve, Commit, Abort, OnAdmission, OnReserveClaim, OnCommitClaim, OnRecord, OnLocal, OnAbortResult;
  }

  lemma {:induction false} OthersStayOn(p: Params, run: Run, steps: seq<Step>, i: nat)
    requires forall step :: step in steps ==> step.Tick? || step.i == i
    requires NoneOf(At(p, run).results, At(p, run).drawn, i) && NoneOf(At(p, run).claims, At(p, run).drawn, i)
    ensures var s, s' := At(p, run), At(p, Continue(run, steps));
            && OthersStay(s.results, s'.results, s'.clock, s'.drawn, i)
            && OthersStay(s.claims, s'.claims, s'.clock, s'.drawn, i)
            && Extends(s.drawn, s'.drawn)
  {
    if steps != [] {
      var n := |steps| - 1;
      var before := Continue(run, steps[..n]);
      OthersStayOn(p, run, steps[..n], i);
      assert At(p, Continue(run, steps)) == Next(p, At(p, before), steps[n]);
      assert steps[n] in steps;
      hide At, Next, OthersStay, OthersKept, NoneOf, Extends;
      DrawnExtends(p, At(p, before), steps[n]);
      Reachable(p, before);
      TokensDrawn(p, At(p, before));
      hide Inv;
      var s, s', s'' := At(p, run), At(p, before), Next(p, At(p, before), steps[n]);
      ExtendsOn(s.drawn, s'.drawn, s''.drawn);
      if steps[n].Tick? {
        StayLonger(s.results, s'.results, s'.clock, s''.clock, s'.drawn, i);
        StayLonger(s.claims, s'.claims, s'.clock, s''.clock, s'.drawn, i);
      } else {
        TouchesOnlyOwn(p, before, steps[n]);
        StayOn(s.results, s'.results, s''.results, s'.clock, s.drawn, s'.drawn, s''.drawn, i);
        StayOn(s.claims, s'.claims, s''.claims, s'.clock, s.drawn, s'.drawn, s''.drawn, i);
      }
    }
  }

  lemma ExtendsOn(a: map<string, nat>, b: map<string, nat>, c: map<string, nat>)
    requires Extends(a, b) && Extends(b, c)
    ensures Extends(a, c)
  {
  }

  lemma StayLonger(t: Table, t': Table, now: real, later: real, drawn: map<string, nat>, i: nat)
    requires OthersStay(t, t', now, drawn, i) && now <= later
    ensures OthersStay(t, t', later, drawn, i)
  {
  }

  lemma IdleOwnsNothing(p: Params, s: State, i: nat)
    requires Inv(p, s) && i < |s.handlers| && s.handlers[i].phase.Idle?
    ensures NoneOf(s.results, s.drawn, i) && NoneOf(s.claims, s.drawn, i)
  {
    hide ValidTable, Replays, AcceptableInput, CachedProof;
    assert HandlerOk(p, s, i);
    forall k | k in s.results.at ensures s.results.at[k].token in s.drawn && s.drawn[s.results.at[k].token] != i {
      assert ResultOk(p, s, k);
    }
    forall k | k in s.claims.at ensures s.claims.at[k].token in s.drawn && s.drawn[s.claims.at[k].token] != i {
      assert ClaimOk(p, s, k);
    }
  }

  /** As if it had never been admitted: a request that runs from arrival to an uncancelled end
      without submitting leaves in both ledgers exactly what was there before, apart from what
      expired meanwhile. */
  lemma FailureLeavesNoTrace(p: Params, run: Run, steps: seq<Step>, i: nat)
    requires i < |At(p, run).handlers| && At(p, run).handlers[i].phase.Idle?
    requires forall step :: step in steps ==> step.Tick? || step.i == i
    requires var s' := At(p, Continue(run, steps));
             && i < |s'.handlers| && s'.handlers[i].phase.Ended?
             && s'.handlers[i].submittedAt.None? && s'.handlers[i].phase.ending != Cancelled
    ensures var s, s' := At(p, run), At(p, Continue(run, steps));
            Ages(s.results.at, s'.results.at, s'.clock) && Ages(s.claims.at, s'.claims.at, s'.clock)
  {
    hide At, ValidTable, Handlers, Results, Claims, Replays;
    Reachable(p, run);
    IdleOwnsNothing(p, At(p, run), i);
    OthersStayOn(p, run, steps, i);
    NothingLeftBehind(p, Continue(run, steps), i);
  }

  // ------------------------------------------------------------------ replays

  /** A paid replay is shown only to a caller presenting the exact proof whose settlement was
      attempted earlier under the same key and request fingerprint; the recorded result is
      younger than its time to live, the attempt at most one reservation older; and the
      request that was shown the replay neither verified nor submitted anything. */
  lemma PaidReplaySound(p: Params, run: Run, i: nat) returns (j: nat)
    requires WellFormed(p)
    requires i < |At(p, run).handlers| && At(p, run).handlers[i].phase.Ended?
    requires At(p, run).handlers[i].phase.ending.Replayed?
    ensures j < |p.requests| == |At(p, run).handlers|
    ensures var s := At(p, run);
            var q, q', h := p.requests[i], p.requests[j], s.handlers[j];
            var at := s.handlers[i].phase.ending.at;
            && q.proof == q'.proof && q.key == q'.key && q.fingerprint == q'.fingerprint
            && h.submittedAt.Some? && h.recordedAt.Some? && h.rendered == Some(s.handlers[i].phase.ending.response)
            && h.submittedAt.value <= h.recordedAt.value <= at
            && at < h.recordedAt.value + PAYMENT_CLAIM_TTL_SECONDS
            && at < h.submittedAt.value + PAYMENT_CLAIM_TTL_SECONDS + PROTECTED_RESERVATION_TTL_SECONDS
            && s.handlers[i].checkedAt.None? && s.handlers[i].submittedAt.None?
  {
    hide At, ValidTable, Results, Claims, AcceptableInput, CachedProof;
    var s := At(p, run);
    Reachable(p, run);
    assert HandlerOk(p, s, i) && ReplayOk(p, s, i);
    j :| 0 <= j < |s.handlers| && ReplayFrom(p, s, i, j);
    assert HandlerOk(p, s, j);
  }

  // ------------------------------------------------------------------ one settlement per authorization

  /** Two submitted settlements for one authorization have claim commits at least 900 seconds
      apart, whatever the delays and cancellations; the later one's claim was even reserved
      that long after the earlier one's commit. */
  lemma SettlementsApart(p: Params, run: Run, i: nat, j: nat)
    requires var s := At(p, run);
             && i < |s.handlers| && j < |s.handlers| && i != j && |s.handlers| == |p.requests|
             && s.handlers[i].submittedAt.Some? && s.handlers[j].submittedAt.Some?
             && p.requests[i].authorization == p.requests[j].authorization
    ensures var a, b := At(p, run).handlers[i], At(p, run).handlers[j];
            && a.claimCommittedAt.Some? && b.claimCommittedAt.Some?
            && (After(a, b) || After(b, a))
            && (a.claimCommittedAt.value + 900.0 <= b.claimCommittedAt.value
                || b.claimCommittedAt.value + 900.0 <= a.claimCommittedAt.value)
  {
    Reachable(p, run);
    assert HandlerOk(p, At(p, run), i) && HandlerOk(p, At(p, run), j);
    assert Apart(p, At(p, run), i, j);
  }

  /** In this run no claim was reserved more than `delay` seconds after its window check. */
  ghost predicate DelaysWithin(s: State, delay: real) {
    forall i :: 0 <= i < |s.handlers| && s.handlers[i].checkedAt.Some? && s.handlers[i].claimReservedAt.Some? ==>
      s.handlers[i].claimReservedAt.value <= s.handlers[i].checkedAt.value + delay
  }

  ghost predicate SettledTwice(p: Params, s: State, i: nat, j: nat) {
    && |s.handlers| == |p.requests| && i < |s.handlers| && j < |s.handlers| && i != j
    && s.handlers[i].submittedAt.Some? && s.handlers[j].submittedAt.Some?
    && p.requests[i].authorization == p.requests[j].authorization
  }

  /** Of two requests that submitted one authorization, one reserved its claim more than
      900 s less the authorization window after its own window check. */
  lemma TwiceNeedsDelay(p: Params, run: Run, i: nat, j: nat)
    requires WellFormed(p) && SettledTwice(p, At(p, run), i, j)
    ensures var a, b := At(p, run).handlers[i], At(p, run).handlers[j];
            var slack := PAYMENT_CLAIM_TTL_SECONDS - p.timeout as real;
            && a.checkedAt.Some? && a.claimReservedAt.Some? && b.checkedAt.Some? && b.claimReservedAt.Some?
            && (a.claimReservedAt.value > a.checkedAt.value + slack
                || b.claimReservedAt.value > b.checkedAt.value + slack)
  {
    SettlementsApart(p, run, i, j);
    Reachable(p, run);
    assert HandlerOk(p, At(p, run), i) && HandlerOk(p, At(p, run), j);
  }

  /** Over every run in which each claim is reserved within `delay` of its window check, no
      authorization is submitted twice. */
  ghost predicate NeverTwice(timeout: int, delay: real) {
    forall p: Params, run: Run, i: nat, j: nat ::
      WellFormed(p) && p.timeout == timeout && DelaysWithin(At(p, run), delay) ==> !SettledTwice(p, At(p, run), i, j)
  }

  /** Exactly when one authorization is settled at most once.  The code does not bound the
      time between the window check and the claim; the bound it needs is 900 s less the
      authorization window, that is 600 s for the default 300 s window. */
  lemma SettledOnceIff(timeout: int, delay: real)
    requires 1 <= timeout <= MAX_PAYMENT_TIMEOUT_SECONDS
    ensures NeverTwice(timeout, delay) <==> delay <= PAYMENT_CLAIM_TTL_SECONDS - timeout as real
  {
    if delay <= PAYMENT_CLAIM_TTL_SECONDS - timeout as real {
      forall p: Params, run: Run, i: nat, j: nat
        | WellFormed(p) && p.timeout == timeout && DelaysWithin(At(p, run), delay)
        ensures !SettledTwice(p, At(p, run), i, j)
      {
        if SettledTwice(p, At(p, run), i, j) { TwiceNeedsDelay(p, run, i, j); }
      }
    } else {
      var p, run := SlowVerifySettlesTwice(timeout, delay);
      assert SettledTwice(p, At(p, run), 0, 1);
    }
  }

  // ------------------------------------------------------------------ the run that settles twice

  const FIRST := Request("a", "f", "p0", "h0", "x", 0, 0)
  const SECOND := Request("b", "f", "p1", "h1", "x", 0, 0)

  function Two(timeout: int): Params {
    Params([FIRST.(validBefore := timeout), SECOND.(validBefore := timeout)], timeout, 0.0)
  }

  function Opening(body: seq<Byte>): Run {
    Then(Then(Then(Then(Then(Then(Then(Start,
      Admission(0, "r0")), LocalCheck(0, true)), VerifyAnswer(0, true)), ReserveClaim(0, "c0")),
      BindAnswer(0, true, body)), CommitClaim(0)), Submit(0))
  }

  function Waiting(wait: real): Run {
    Then(Then(Then(Then(Opening([]), Tick(wait)), Admission(1, "r1")), LocalCheck(1, true)), Tick(900.0 - wait))
  }

  function Twice(wait: real): Run {
    Then(Then(Then(Then(Then(Waiting(wait),
      VerifyAnswer(1, true)), ReserveClaim(1, "c1")), BindAnswer(1, true, [])), CommitClaim(1)), Submit(1))
  }

  lemma Grants(c: Config, t: Table, now: real, k: Key, f: string, token: string)
    requires ValidConfig(c) && !c.evict && ValidTable(c, t) && AcceptableInput(k, f)
    requires k in t.at ==> t.at[k].expiresAt <= now
    requires |t.order| < c.maxEntries
    requires CachedBytes(t) + ReservedBytes(t) + c.maxResponseBytes <= c.maxTotalBytes
    ensures Reserve(c, t, now, k, f, token).1 == Granted(Reservation(k, f, token, now + c.reservationTtl))
  {
    DropSums(t, Expired(t, now));
  }

  lemma OneEntry(k: Key, e: Entry)
    ensures var t := Table([k], map[k := e]);
            && Ordered(t)
            && CachedBytes(t) == (if e.response.Some? then Size(e.response.value) else 0)
            && ReservedBytes(t) == e.reservedBytes
  {
    var at := map[k := e];
    assert [k][1..] == [];
    assert SumCached([k], at) == CachedOf(at, k) + SumCached([k][1..], at);
    assert SumReserved([k], at) == ReservedOf(at, k) + SumReserved([k][1..], at);
  }

  lemma PutAlone(t: Table, k: Key, e: Entry)
    requires t == EMPTY || (t.order == [k] && t.at.Keys == {k})
    ensures PutLast(t, k, e) == Table([k], map[k := e])
  {
    assert t.order != [] ==> t.order[1..] == [];
    assert Keep(t.order, t.at.Keys - {k}) == [];
    assert t.at[k := e] == map[k := e];
  }

  lemma ReserveFirst(c: Config, now: real, k: Key, f: string, token: string)
    requires ValidConfig(c) && !c.evict && AcceptableInput(k, f)
    ensures Reserve(c, EMPTY, now, k, f, token)
         == (Table([k], map[k := ReservedEntry(c, now, f, token)]), Granted(Reservation(k, f, token, now + c.reservationTtl)))
  {
    assert Live(EMPTY, now) == EMPTY;
    PutAlone(EMPTY, k, ReservedEntry(c, now, f, token));
  }

  lemma CommitOnly(c: Config, now: real, k: Key, f: string, token: string, response: Response)
    requires ValidConfig(c) && !c.evict && Size(response) <= c.maxResponseBytes
    ensures Commit(c, Table([k], map[k := ReservedEntry(c, now, f, token)]), now,
                   Reservation(k, f, token, now + c.reservationTtl), response)
         == (Table([k], map[k := CompletedEntry(c, now, ReservedEntry(c, now, f, token), response)]), Committed)
  {
    var t := Table([k], map[k := ReservedEntry(c, now, f, token)]);
    OneEntry(k, t.at[k]);
    assert Expired(t, now) == {};
    DropNothing(t, {});
    PutAlone(t, k, CompletedEntry(c, now, t.at[k], response));
  }

  lemma CommitSucceeds(c: Config, t: Table, now: real, r: Reservation, response: Response)
    requires ValidConfig(c) && ValidTable(c, t) && Owns(t, r) && now < t.at[r.key].expiresAt
    requires Size(response) <= c.maxResponseBytes
    ensures Commit(c, t, now, r, response).1.Committed?
  {
    LiveValid(c, t, now);
    PublishKeeps(c, Live(t, now), now, r.key, response);
  }

  const RK := ResultKey(FIRST)
  const CK := ClaimKey(FIRST)
  const CLAIM := Table([CK], map[CK := ReservedEntry(CLAIMS, 0.0, "f", "c0")])
  const TAKEN := Table([CK], map[CK := CompletedEntry(CLAIMS, 0.0, ReservedEntry(CLAIMS, 0.0, "f", "c0"), TOMBSTONE)])
  const OPENED := Handler(Settling, Some(Reservation(RK, "f", "r0", 120.0)), Some(0.0),
                          Some(Reservation(CK, "f", "c0", 120.0)), Some(0.0), [],
                          Some(0.0), Some(0.0), None, None)

  /** The state in which only the first request has moved. */
  function Early(h: Handler, claims: Table, drawn: map<string, nat>): State {
    State(0.0, Table([RK], map[RK := ReservedEntry(RESULTS, 0.0, "f", "r0")]), claims, [h, FRESH], drawn)
  }

  const VERIFIED := FRESH.(phase := Verified, reservation := OPENED.reservation, checkedAt := Some(0.0))
  const BOUND := OPENED.(phase := Bound, claimCommittedAt := None, submittedAt := None)
  const DRAWN := map["r0" := 0, "c0" := 0]

  lemma FirstVerified(timeout: int)
    requires 1 <= timeout
    ensures var p := Two(timeout);
            Next(p, Next(p, Next(p, Initial(p), Admission(0, "r0")), LocalCheck(0, true)), VerifyAnswer(0, true))
            == Early(VERIFIED, EMPTY, map["r0" := 0])
  {
    hide Reserve;
    var p := Two(timeout);
    ReserveFirst(RESULTS, 0.0, RK, "f", "r0");
    assert Initial(p).handlers == [FRESH, FRESH];
    var s1 := Next(p, Initial(p), Admission(0, "r0"));
    assert s1 == Early(FRESH.(phase := Admitted, reservation := OPENED.reservation), EMPTY, map["r0" := 0]);
    var s2 := Next(p, s1, LocalCheck(0, true));
    assert s2 == Early(FRESH.(phase := Verifying, reservation := OPENED.reservation, checkedAt := Some(0.0)),
                       EMPTY, map["r0" := 0]);
  }

  lemma FirstBinding(timeout: int)
    ensures Next(Two(timeout), Early(VERIFIED, EMPTY, map["r0" := 0]), ReserveClaim(0, "c0"))
         == Early(BOUND.(phase := Binding), CLAIM, DRAWN)
  {
    hide Reserve, Utf8Length;
    ReserveFirst(CLAIMS, 0.0, CK, "f", "c0");
    var s := Early(VERIFIED, EMPTY, map["r0" := 0]);
    assert s.drawn["c0" := 0] == DRAWN;
    var (t, o) := Reserve(CLAIMS, s.claims, s.clock, CK, "f", "c0");
    assert AfterReserveClaim(s, 0, "c0", t, o).handlers == [BOUND.(phase := Binding), FRESH];
  }

  lemma SmallTombstone()
    ensures Size(TOMBSTONE) <= CLAIMS.maxResponseBytes
  {
    hide Utf8Length;
    var h := TOMBSTONE.headers[0];
    assert TOMBSTONE.headers[1..] == [];
    assert HeaderBytes(TOMBSTONE.headers) == Utf8Length(h.name) + Utf8Length(h.value) + HeaderBytes(TOMBSTONE.headers[1..]);
  }

  lemma FirstClaimed(timeout: int, body: seq<Byte>)
    ensures Next(Two(timeout), Early(BOUND.(body := body), CLAIM, DRAWN), CommitClaim(0))
         == Early(OPENED.(phase := Claimed, submittedAt := None, body := body), TAKEN, DRAWN)
  {
    hide Commit, Utf8Length, Size;
    SmallTombstone();
    CommitOnly(CLAIMS, 0.0, CK, "f", "c0", TOMBSTONE);
    var s := Early(BOUND.(body := body), CLAIM, DRAWN);
    var (t, o) := Commit(CLAIMS, s.claims, s.clock, s.handlers[0].claim.value, TOMBSTONE);
    assert AfterCommitClaim(s, 0, t, o).handlers == [OPENED.(phase := Claimed, submittedAt := None, body := body), FRESH];
  }

  lemma FirstAnswers(timeout: int, body: seq<Byte>)
    requires |body| <= MAX_CACHED_RESULT_BYTES
    ensures Next(Two(timeout), Early(BOUND.(phase := Binding), CLAIM, DRAWN), BindAnswer(0, true, body))
         == Early(BOUND.(body := body), CLAIM, DRAWN)
    ensures Next(Two(timeout), Early(OPENED.(phase := Claimed, submittedAt := None, body := body), TAKEN, DRAWN), Submit(0))
         == Early(OPENED.(body := body), TAKEN, DRAWN)
  {
  }

  /** The first request runs undisturbed to its settlement. */
  lemma OpeningRuns(timeout: int, body: seq<Byte>)
    requires 1 <= timeout && |body| <= MAX_CACHED_RESULT_BYTES
    ensures At(Two(timeout), Opening(body)) == Early(OPENED.(body := body), TAKEN, DRAWN)
  {
    hide Next, Early;
    var p := Two(timeout);
    FirstVerified(timeout);
    FirstBinding(timeout);
    FirstClaimed(timeout, body);
    FirstAnswers(timeout, body);
    var run1 := Then(Start, Admission(0, "r0"));
    assert At(p, run1) == Next(p, Initial(p), Admission(0, "r0"));
    var run2 := Then(run1, LocalCheck(0, true));
    var run3 := Then(run2, VerifyAnswer(0, true));
    assert At(p, run3) == Early(VERIFIED, EMPTY, map["r0" := 0]);
    var run4 := Then(run3, ReserveClaim(0, "c0"));
    var run5 := Then(run4, BindAnswer(0, true, body));
    assert At(p, run5) == Early(BOUND.(body := body), CLAIM, DRAWN);
    var run6 := Then(run5, CommitClaim(0));
    assert At(p, run6) == Next(p, At(p, run5), CommitClaim(0));
  }

  ghost predicate Other(s: State, h: Handler, drawn: map<string, nat>) {
    s.handlers == [OPENED, h] && s.drawn == drawn
  }

  /** The second request passes its window check just before the window closes. */
  lemma SecondAdmitted(timeout: int, wait: real) returns (r: Reservation)
    requires 1 <= timeout && 0.0 <= wait
    ensures var s := At(Two(timeout), Then(Then(Opening([]), Tick(wait)), Admission(1, "r1")));
            Other(s, FRESH.(phase := Admitted, reservation := Some(r)), DRAWN["r1" := 1]) && s.clock == wait && s.claims == TAKEN
  {
    hide Reserve, Utf8Length, ValidTable, Handlers, Results, Claims, Replays;
    var p := Two(timeout);
    OpeningRuns(timeout, []);
    assert OPENED.(body := []) == OPENED;
    var run := Then(Opening([]), Tick(wait));
    var s := At(p, run);
    assert s == Early(OPENED, TAKEN, DRAWN).(clock := wait);
    Reachable(p, run);
    var k := ResultKey(SECOND);
    assert k.name != RK.name by { assert "a"[0] != "b"[0]; }
    OneEntry(RK, ReservedEntry(RESULTS, 0.0, "f", "r0"));
    Grants(RESULTS, s.results, wait, k, "f", "r1");
    r := Reservation(k, "f", "r1", wait + RESULTS.reservationTtl);
    assert "r1" !in DRAWN;
    var (t, o) := Reserve(RESULTS, s.results, s.clock, k, "f", "r1");
    var s' := AfterAdmission(p, s, 1, "r1", t, o);
    assert Enabled(s, Admission(1, "r1"));
    assert At(p, Then(run, Admission(1, "r1"))) == s';
    assert s'.handlers == [OPENED, FRESH.(phase := Admitted, reservation := Some(r))];
  }

  lemma SecondChecked(timeout: int, wait: real) returns (r: Reservation)
    requires 1 <= timeout && 0.0 <= wait < timeout as real && wait <= 900.0
    ensures var s := At(Two(timeout), Then(Waiting(wait), VerifyAnswer(1, true)));
            Other(s, FRESH.(phase := Verified, reservation := Some(r), checkedAt := Some(wait)), DRAWN["r1" := 1])
            && s.clock == 900.0 && s.claims == TAKEN
  {
    hide Reserve, Utf8Length, Early;
    var p := Two(timeout);
    r := SecondAdmitted(timeout, wait);
    var run9 := Then(Then(Opening([]), Tick(wait)), Admission(1, "r1"));
    hide Opening;
    var s9 := At(p, run9);
    var s10 := Next(p, s9, LocalCheck(1, true));
    assert s10.handlers == [OPENED, FRESH.(phase := Verifying, reservation := Some(r), checkedAt := Some(wait))];
    var s11 := Next(p, s10, Tick(900.0 - wait));
    assert s11 == s10.(clock := 900.0);
    assert At(p, Then(run9, LocalCheck(1, true))) == s10;
    assert At(p, Waiting(wait)) == s11;
    assert Next(p, s11, VerifyAnswer(1, true)).handlers
        == [OPENED, FRESH.(phase := Verified, reservation := Some(r), checkedAt := Some(wait))];
  }

  const CLAIMED := Reservation(CK, "f", "c1", 900.0 + CLAIMS.reservationTtl)

  function Reclaimed(r: Reservation, wait: real): Handler {
    FRESH.(phase := Binding, reservation := Some(r), checkedAt := Some(wait),
           claim := Some(CLAIMED), claimReservedAt := Some(900.0))
  }

  /** Past the first claim's time to live, the second claim is granted. */
  lemma SecondClaims(timeout: int, wait: real) returns (r: Reservation)
    requires 1 <= timeout && 0.0 <= wait < timeout as real && wait <= 900.0
    ensures var s := At(Two(timeout), Then(Then(Waiting(wait), VerifyAnswer(1, true)), ReserveClaim(1, "c1")));
            && s.handlers == [OPENED, Reclaimed(r, wait)] && s.clock == 900.0
            && ValidTable(CLAIMS, s.claims) && Owns(s.claims, CLAIMED) && s.clock < s.claims.at[CK].expiresAt
  {
    hide Reserve, Utf8Length, Size, ValidTable, Handlers, Results, Claims, Replays, Waiting;
    var p := Two(timeout);
    r := SecondChecked(timeout, wait);
    var run12 := Then(Waiting(wait), VerifyAnswer(1, true));
    var s12 := At(p, run12);
    Reachable(p, run12);
    OneEntry(CK, TAKEN.at[CK]);
    SmallTombstone();
    assert "c1" !in s12.drawn;
    Grants(CLAIMS, s12.claims, 900.0, CK, "f", "c1");
    ReserveHas(CLAIMS, s12.claims, 900.0, CK, "f", "c1");
    var s13 := Next(p, s12, ReserveClaim(1, "c1"));
    assert s13.handlers == [OPENED, Reclaimed(r, wait)];
  }

  /** It is committed and submitted. */
  lemma SecondSubmits(timeout: int, wait: real)
    requires 1 <= timeout && 0.0 <= wait < timeout as real && wait <= 900.0
    ensures var s := At(Two(timeout), Twice(wait));
            && |s.handlers| == 2 && s.handlers[0] == OPENED
            && s.handlers[1].submittedAt.Some? && s.handlers[1].checkedAt == Some(wait)
            && s.handlers[1].claimReservedAt == Some(900.0)
  {
    hide Reserve, Commit, Utf8Length, Size, ValidTable, Waiting, Owns;
    var p := Two(timeout);
    var r := SecondClaims(timeout, wait);
    var run13 := Then(Then(Waiting(wait), VerifyAnswer(1, true)), ReserveClaim(1, "c1"));
    var s13 := At(p, run13);
    hide At;
    var s14 := Next(p, s13, BindAnswer(1, true, []));
    assert s14.handlers == [OPENED, Reclaimed(r, wait).(phase := Bound)];
    SmallTombstone();
    CommitSucceeds(CLAIMS, s14.claims, 900.0, CLAIMED, TOMBSTONE);
    var s15 := Next(p, s14, CommitClaim(1));
    assert s15.handlers == [OPENED, Reclaimed(r, wait).(phase := Claimed, claimCommittedAt := Some(900.0))];
    LastThree(p, run13);
  }

  lemma LastThree(p: Params, run: Run)
    ensures At(p, Then(Then(Then(run, BindAnswer(1, true, [])), CommitClaim(1)), Submit(1)))
         == Next(p, Next(p, Next(p, At(p, run), BindAnswer(1, true, [])), CommitClaim(1)), Submit(1))
  {
    hide Next;
    var one := Then(run, BindAnswer(1, true, []));
    assert At(p, one) == Next(p, At(p, run), BindAnswer(1, true, []));
    assert At(p, Then(one, CommitClaim(1))) == Next(p, At(p, one), CommitClaim(1));
  }

  /** For any delay bound over the safe one there is a run within it that settles one
      authorization twice: the second verification outlasts the first claim. */
  lemma SlowVerifySettlesTwice(timeout: int, delay: real) returns (p: Params, run: Run)
    requires 1 <= timeout <= MAX_PAYMENT_TIMEOUT_SECONDS && delay > PAYMENT_CLAIM_TTL_SECONDS - timeout as real
    ensures WellFormed(p) && p.timeout == timeout
    ensures DelaysWithin(At(p, run), delay) && SettledTwice(p, At(p, run), 0, 1)
  {
    hide At, Twice;
    var over := delay - (PAYMENT_CLAIM_TTL_SECONDS - timeout as real);
    var wait := timeout as real - if over < 1.0 then over else 1.0;
    p, run := Two(timeout), Twice(wait);
    SecondSubmits(timeout, wait);
    assert "h0" != "h1" by { assert "h0"[1] != "h1"[1]; }
  }
}

/** What the environment's answers decide about a paid request, read off the steps of a run. */
module PaidProgress {
  import opened Basics
  import opened Ledger
  import opened LedgerLaws
  import opened LedgerAnswers
  import opened PaidProtocol
  import opened PaidInvariant
  import opened PaidSafety

  // ------------------------------------------------------------------ nothing is submitted without every answer

  /** The step occurs in the run. */
  ghost predicate Occurs(run: Run, step: Step) {
    run.Then? && (run.step == step || Occurs(run.before, step))
  }

  /** The answers that handler `i`'s record rests on were given in the run. */
  ghost predicate Backed(p: Params, run: Run, i: nat)
    requires i < |At(p, run).handlers| == |p.requests|
  {
    var q, h := p.requests[i], At(p, run).handlers[i];
    && (h.checkedAt.Some? ==>
          && Occurs(run, LocalCheck(i, true))
          && q.validAfter as real <= h.checkedAt.value < q.validBefore as real <= h.checkedAt.value + p.timeout as real)
    && (h.phase.Verified? || h.claim.Some? ==> Occurs(run, VerifyAnswer(i, true)))
    && (h.phase.Bound? || h.claimCommittedAt.Some? ==>
          |h.body| <= 2 * 1024 * 1024 && Occurs(run, BindAnswer(i, true, h.body)))
    && (h.claimCommittedAt.Some? ==> Occurs(run, CommitClaim(i)))
    && (h.submittedAt.Some? ==> Occurs(run, Submit(i)))
  }

  lemma {:induction false} HandlersCounted(p: Params, run: Run)
    ensures |At(p, run).handlers| == |p.requests|
  {
    Reachable(p, run);
  }

  lemma SameRecord(p: Params, run: Run, step: Step, i: nat)
    requires |At(p, run).handlers| == |p.requests| == |At(p, Then(run, step)).handlers| && i < |p.requests|
    requires At(p, Then(run, step)).handlers[i] == At(p, run).handlers[i] && Backed(p, run, i)
    ensures Backed(p, Then(run, step), i)
  {
    hide At;
  }

  lemma OthersUnmoved(p: Params, s: State, step: Step, i: nat)
    requires i < |s.handlers| == |p.requests| && (!Enabled(s, step) || step.Tick? || step.i != i)
    ensures |Next(p, s, step).handlers| == |s.handlers| && Next(p, s, step).handlers[i] == s.handlers[i]
  {
    hide Reserve, Commit, Abort, OnAdmission, OnReserveClaim, OnCommitClaim, OnRecord, OnLocal, OnAbortResult;
  }

  /** What one step of handler `i` may add to its record, and which answer it takes. */
  ghost predicate Moved(p: Params, s: State, step: Step, i: nat, h': Handler)
    requires i < |s.handlers| == |p.requests|
  {
    var q, h := p.requests[i], s.handlers[i];
    && (h'.checkedAt != h.checkedAt ==>
          && step == LocalCheck(i, true) && h'.checkedAt == Some(s.clock)
          && q.validAfter as real <= s.clock < q.validBefore as real <= s.clock + p.timeout as real)
    && (h'.phase.Verified? ==> step == VerifyAnswer(i, true))
    && (h'.claim != h.claim ==> step.ReserveClaim? && h.phase.Verified?)
    && (h'.phase.Bound? ==> step == BindAnswer(i, true, h'.body) && |h'.body| <= 2 * 1024 * 1024)
    && (h'.body != h.body ==> h'.phase.Bound?)
    && (h'.claimCommittedAt != h.claimCommittedAt ==> step == CommitClaim(i) && h.phase.Bound?)
    && (h'.submittedAt != h.submittedAt ==> step == Submit(i))
    && (h.phase.Binding? ==> h.claimCommittedAt.None?)
  }

  lemma StepMoves(p: Params, s: State, step: Step)
    requires |s.handlers| == |p.requests| && Enabled(s, step) && !step.Tick? && PhaseOk(s.handlers[step.i])
    ensures |Next(p, s, step).handlers| == |s.handlers| && Moved(p, s, step, step.i, Next(p, s, step).handlers[step.i])
  {
    hide Reserve, Commit, Abort, ResultResponse, Cacheable, CachedProof;
  }

  lemma {:induction false} AlwaysBacked(p: Params, run: Run, i: nat)
    requires i < |p.requests|
    ensures i < |At(p, run).handlers| == |p.requests| && Backed(p, run, i)
  {
    HandlersCounted(p, run);
    match run
    case Start =>
    case Then(before, step) =>
      AlwaysBacked(p, before, i);
      var s := At(p, before);
      Unrolls(p, before, step);
      if !Enabled(s, step) || step.Tick? || step.i != i {
        OthersUnmoved(p, s, step, i);
        hide Next;
        SameRecord(p, before, step, i);
      } else {
        RecordInPhase(p, before, i);
        StepMoves(p, s, step);
        hide At, Next, Enabled;
        StillBacked(p, before, step, i);
      }
  }

  lemma Unrolls(p: Params, run: Run, step: Step)
    ensures At(p, Then(run, step)) == Next(p, At(p, run), step)
  {
  }

  lemma RecordInPhase(p: Params, run: Run, i: nat)
    requires i < |At(p, run).handlers| == |p.requests|
    ensures PhaseOk(At(p, run).handlers[i])
  {
    hide At, ValidTable, Results, Claims, Replays, AcceptableInput;
    Reachable(p, run);
    assert HandlerOk(p, At(p, run), i);
  }

  lemma StillBacked(p: Params, run: Run, step: Step, i: nat)
    requires i < |At(p, run).handlers| == |p.requests| == |At(p, Then(run, step)).handlers|
    requires Backed(p, run, i) && Moved(p, At(p, run), step, i, At(p, Then(run, step)).handlers[i])
    requires PhaseOk(At(p, run).handlers[i])
    ensures Backed(p, Then(run, step), i)
  {
    hide At;
  }

  /** Whatever happens in a run, a request that was submitted had its local checks pass inside the
      authorization window, the facilitator say that its proof is valid, and its answer bound and
      within the limit; a single refusal means that it is not submitted. */
  lemma SubmissionNeedsEveryAnswer(p: Params, run: Run, i: nat)
    requires i < |At(p, run).handlers| && At(p, run).handlers[i].submittedAt.Some?
    ensures |At(p, run).handlers| == |p.requests|
    ensures var q, h := p.requests[i], At(p, run).handlers[i];
            && Occurs(run, LocalCheck(i, true)) && Occurs(run, VerifyAnswer(i, true))
            && (exists body :: |body| <= 2 * 1024 * 1024 && h.body == body && Occurs(run, BindAnswer(i, true, body)))
            && Occurs(run, CommitClaim(i)) && Occurs(run, Submit(i))
            && h.checkedAt.Some?
            && q.validAfter as real <= h.checkedAt.value < q.validBefore as real <= h.checkedAt.value + p.timeout as real
  {
    HandlersCounted(p, run);
    AlwaysBacked(p, run, i);
    RecordInPhase(p, run, i);
    hide At;
  }

  // ------------------------------------------------------------------ a free request goes through

  /** At `now`, request `q` finds its key free and a place in the ledger of results. */
  ghost predicate KeyFree(s: State, q: Request, now: real) {
    && Presentable(Key("x402", q.key), q.fingerprint)
    && Key("x402", q.key) !in Unexpired(s.results, now)
    && |Unexpired(s.results, now)| < 512
    && UnexpiredBytes(s.results, now) + 2 * 1024 * 1024 <= 32 * 1024 * 1024
  }

  /** At `now`, request `q` finds its authorization unused and a place in the ledger of claims. */
  ghost predicate AuthorizationFree(s: State, q: Request, now: real) {
    && Presentable(Key("x402-authorization", q.authorization), q.fingerprint)
    && Key("x402-authorization", q.authorization) !in Unexpired(s.claims, now)
    && |Unexpired(s.claims, now)| < 4096
    && UnexpiredBytes(s.claims, now) + 1024 <= 4 * 1024 * 1024
  }

  lemma TakesKey(p: Params, s: State, i: nat, token: string)
    requires Inv(p, s) && Enabled(s, Admission(i, token)) && KeyFree(s, p.requests[i], s.clock)
    ensures |s.handlers| == |p.requests|
    ensures var s' := Next(p, s, Admission(i, token));
            && s'.clock == s.clock && s'.claims == s.claims && |s'.handlers| == |s.handlers|
            && s'.drawn == s.drawn[token := i]
            && s'.handlers[i] == s.handlers[i].(phase := Admitted, reservation := s'.handlers[i].reservation)
            && s'.handlers[i].reservation.Some?
  {
    hide ValidTable, Presentable, Unexpired, UnexpiredBytes, Reserve, Handlers, Results, Claims, Replays, CachedProof;
    var q := p.requests[i];
    ReserveAnswers(RESULTS, s.results, s.clock, ResultKey(q), q.fingerprint, token);
  }

  lemma LocalMove(p: Params, s: State, step: Step)
    requires |s.handlers| == |p.requests| && Local(step) && Enabled(s, step)
    ensures Next(p, s, step) == Put(s, step.i, OnLocal(p, p.requests[step.i], s.handlers[step.i], step, s.clock))
  {
    hide OnLocal;
  }

  lemma TickMove(p: Params, s: State, seconds: real)
    requires |s.handlers| == |p.requests| && seconds >= 0.0
    ensures Next(p, s, Tick(seconds)) == s.(clock := s.clock + seconds)
  {
  }

  lemma ClaimTaken(p: Params, s: State, i: nat, token: string)
    requires Inv(p, s) && Enabled(s, ReserveClaim(i, token)) && AuthorizationFree(s, p.requests[i], s.clock)
    ensures |s.handlers| == |p.requests|
    ensures var s', q := Next(p, s, ReserveClaim(i, token)), p.requests[i];
            var claim := Reservation(Key("x402-authorization", q.authorization), q.fingerprint, token, s.clock + 120.0);
            && s'.clock == s.clock && |s'.handlers| == |s.handlers|
            && s'.handlers[i] == s.handlers[i].(phase := Binding, claim := Some(claim), claimReservedAt := Some(s.clock))
            && ValidTable(CLAIMS, s'.claims) && Owns(s'.claims, claim) && s'.claims.at[claim.key].expiresAt == s.clock + 120.0
  {
    hide ValidTable, AuthorizationFree, Owns, Reserve, Handlers, Results, Claims, Replays;
    ClaimGrants(s, p.requests[i], token);
  }

  lemma ClaimGrants(s: State, q: Request, token: string)
    requires ValidTable(CLAIMS, s.claims) && AuthorizationFree(s, q, s.clock)
    ensures var (t, o) := Reserve(CLAIMS, s.claims, s.clock, ClaimKey(q), q.fingerprint, token);
            var claim := Reservation(Key("x402-authorization", q.authorization), q.fingerprint, token, s.clock + 120.0);
            && o == Granted(claim) && ValidTable(CLAIMS, t) && Owns(t, claim) && t.at[claim.key].expiresAt == s.clock + 120.0
  {
    hide ValidTable, Presentable, Unexpired, UnexpiredBytes, Reserve;
    ReserveAnswers(CLAIMS, s.claims, s.clock, ClaimKey(q), q.fingerprint, token);
    ReserveHas(CLAIMS, s.claims, s.clock, ClaimKey(q), q.fingerprint, token);
  }

  lemma ClaimCommits(p: Params, s: State, i: nat, claim: Reservation)
    requires i < |s.handlers| == |p.requests| && s.handlers[i].phase.Bound? && s.handlers[i].claim == Some(claim)
    requires ValidTable(CLAIMS, s.claims) && Owns(s.claims, claim) && s.clock < s.claims.at[claim.key].expiresAt
    ensures var s' := Next(p, s, CommitClaim(i));
            && s'.clock == s.clock && |s'.handlers| == |s.handlers|
            && s'.handlers[i] == s.handlers[i].(phase := Claimed, claimCommittedAt := Some(s.clock))
  {
    hide ValidTable, Size, Commit, Owns;
    SmallTombstone();
    CommitSucceeds(CLAIMS, s.claims, s.clock, claim, TOMBSTONE);
  }

  /** From arrival to submission, `verifying` and `binding` seconds being spent at the awaits. */
  function ToSubmission(run: Run, i: nat, resultToken: string, claimToken: string, verifying: real, binding: real, body: seq<Byte>): Run {
    Then(Then(Then(Then(ToVerified(run, i, resultToken, verifying),
      ReserveClaim(i, claimToken)), Tick(binding)), BindAnswer(i, true, body)), CommitClaim(i))
  }

  function ToVerified(run: Run, i: nat, resultToken: string, verifying: real): Run {
    Then(Then(Then(Then(run, Admission(i, resultToken)), LocalCheck(i, true)), Tick(verifying)), VerifyAnswer(i, true))
  }

  lemma ReachesVerified(p: Params, run: Run, i: nat, resultToken: string, verifying: real)
    requires var s := At(p, run);
             && i < |s.handlers| == |p.requests| && Enabled(s, Admission(i, resultToken))
             && KeyFree(s, p.requests[i], s.clock) && verifying >= 0.0
             && p.requests[i].validAfter as real <= s.clock < p.requests[i].validBefore as real <= s.clock + p.timeout as real
    ensures var s, s' := At(p, run), At(p, ToVerified(run, i, resultToken, verifying));
            && s'.clock == s.clock + verifying && s'.claims == s.claims && |s'.handlers| == |s.handlers|
            && s'.drawn == s.drawn[resultToken := i]
            && s'.handlers[i].phase.Verified? && s'.handlers[i].submittedAt == s.handlers[i].submittedAt
  {
    hide At, Next, KeyFree, Inv;
    var s0 := At(p, run);
    Reachable(p, run);
    TakesKey(p, s0, i, resultToken);
    var r1 := Then(run, Admission(i, resultToken));
    Unrolls(p, run, Admission(i, resultToken));
    var s1 := At(p, r1);
    LocalMove(p, s1, LocalCheck(i, true));
    Unrolls(p, r1, LocalCheck(i, true));
    var r2 := Then(r1, LocalCheck(i, true));
    TickMove(p, At(p, r2), verifying);
    Unrolls(p, r2, Tick(verifying));
    var r3 := Then(r2, Tick(verifying));
    LocalMove(p, At(p, r3), VerifyAnswer(i, true));
    Unrolls(p, r3, VerifyAnswer(i, true));
  }

  lemma ReachesClaimed(p: Params, run: Run, i: nat, claimToken: string, binding: real, body: seq<Byte>)
    requires var s := At(p, run);
             && i < |s.handlers| == |p.requests| && s.handlers[i].phase.Verified? && claimToken !in s.drawn
             && AuthorizationFree(s, p.requests[i], s.clock) && 0.0 <= binding < 120.0 && |body| <= 2 * 1024 * 1024
    ensures var s := At(p, run);
            var s' := At(p, Then(Then(Then(Then(run, ReserveClaim(i, claimToken)), Tick(binding)), BindAnswer(i, true, body)), CommitClaim(i)));
            && s'.clock == s.clock + binding && |s'.handlers| == |s.handlers|
            && s'.handlers[i].phase.Claimed? && s'.handlers[i].claimCommittedAt == Some(s'.clock) && s'.handlers[i].body == body
  {
    hide At, Next, AuthorizationFree, Inv, ValidTable, Owns;
    var s0 := At(p, run);
    Reachable(p, run);
    ClaimTaken(p, s0, i, claimToken);
    Unrolls(p, run, ReserveClaim(i, claimToken));
    var r1 := Then(run, ReserveClaim(i, claimToken));
    TickMove(p, At(p, r1), binding);
    Unrolls(p, r1, Tick(binding));
    var r2 := Then(r1, Tick(binding));
    LocalMove(p, At(p, r2), BindAnswer(i, true, body));
    Unrolls(p, r2, BindAnswer(i, true, body));
    var r3 := Then(r2, BindAnswer(i, true, body));
    ClaimCommits(p, At(p, r3), i, At(p, r3).handlers[i].claim.value);
    Unrolls(p, r3, CommitClaim(i));
  }

  /** A request in its window, with a free key, an unused authorization and places in both
      ledgers, is submitted when every answer is good, however long verification takes, and
      however the binding takes its time short of the 120 s of the claim's reservation. */
  lemma FreeRequestIsSubmitted(p: Params, run: Run, i: nat, resultToken: string, claimToken: string,
                               verifying: real, binding: real, body: seq<Byte>)
    requires var s := At(p, run);
             && i < |s.handlers| && s.handlers[i].phase.Idle? && i < |p.requests|
             && resultToken !in s.drawn && claimToken !in s.drawn && resultToken != claimToken
             && KeyFree(s, p.requests[i], s.clock) && AuthorizationFree(s, p.requests[i], s.clock + verifying)
             && p.requests[i].validAfter as real <= s.clock < p.requests[i].validBefore as real <= s.clock + p.timeout as real
    requires verifying >= 0.0 && 0.0 <= binding < 120.0 && |body| <= 2 * 1024 * 1024
    ensures var s := At(p, run);
            var s' := At(p, Then(ToSubmission(run, i, resultToken, claimToken, verifying, binding, body), Submit(i)));
            && i < |s'.handlers| && s'.clock == s.clock + verifying + binding
            && s'.handlers[i].phase.Settling? && s'.handlers[i].submittedAt == Some(s'.clock)
            && s'.handlers[i].claimCommittedAt == Some(s'.clock) && s'.handlers[i].body == body
  {
    hide At, Next, KeyFree, AuthorizationFree, Inv, ToVerified;
    HandlersCounted(p, run);
    ReachesVerified(p, run, i, resultToken, verifying);
    var verified := ToVerified(run, i, resultToken, verifying);
    SameClaims(At(p, run), At(p, verified), p.requests[i]);
    ReachesClaimed(p, verified, i, claimToken, binding, body);
    var claimed := ToSubmission(run, i, resultToken, claimToken, verifying, binding, body);
    LocalMove(p, At(p, claimed), Submit(i));
    Unrolls(p, claimed, Submit(i));
  }

  lemma SameClaims(s: State, s': State, q: Request)
    requires s'.claims == s.claims && AuthorizationFree(s, q, s'.clock)
    ensures AuthorizationFree(s', q, s'.clock)
  {
  }

  // ------------------------------------------------------------------ cancellation

  /** At each of the three awaits, and nowhere else, a request can be cancelled; both ledgers stay
      as they are, so its reservations and its claim remain until they expire. */
  lemma CancelLeavesEverything(p: Params, s: State, i: nat)
    requires i < |s.handlers| == |p.requests|
    ensures Enabled(s, Cancel(i)) <==> s.handlers[i].phase in {Verifying, Binding, Settling}
    ensures var s' := Next(p, s, Cancel(i));
            s'.results == s.results && s'.claims == s.claims && s'.clock == s.clock && |s'.handlers| == |s.handlers|
            && (Enabled(s, Cancel(i)) ==> s'.handlers[i] == s.handlers[i].(phase := Ended(Cancelled)))
  {
  }
}

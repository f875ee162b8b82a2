/** The paid branch of `transaction_preflight` as the service runs it, on the two ledger objects.

A `Service` holds the two stores and every handler's record.  Each handler is a program that
updates its record step by step; while it awaits, other handlers act, and it may be cancelled
there.  The program is proved to take exactly steps of the protocol, so every law of
`PaidSafety` holds of it. */
module PaidHandler {
  import opened Basics
  import opened Ledger
  import opened IdempotencyStores
  import opened PaidProtocol

  /** The state after the steps, in order. */
  function Play(p: Params, s: State, steps: seq<Step>): State {
    if steps == [] then s else Next(p, Play(p, s, steps[..|steps| - 1]), steps[|steps| - 1])
  }

  lemma PlaySnoc(p: Params, s: State, steps: seq<Step>, step: Step)
    ensures Play(p, s, steps + [step]) == Next(p, Play(p, s, steps), step)
  {
    assert (steps + [step])[..|steps|] == steps;
  }

  lemma {:induction false} PlayAppend(p: Params, s: State, a: seq<Step>, b: seq<Step>)
    ensures Play(p, s, a + b) == Play(p, Play(p, s, a), b)
  {
    if b == [] {
      assert a + b == a;
    } else {
      var front, last := b[..|b| - 1], b[|b| - 1];
      assert a + b == (a + front) + [last];
      PlayAppend(p, s, a, front);
      PlaySnoc(p, s, a + front, last);
    }
  }

  /** The state occurs in some run, so what `PaidSafety` proves of every run holds in it. */
  ghost predicate Reached(p: Params, s: State) {
    exists run :: At(p, run) == s
  }

  lemma StartIsReached(p: Params)
    ensures Reached(p, Initial(p))
  {
    assert At(p, Start) == Initial(p);
  }

  /** Playing steps from a reached state reaches another. */
  lemma {:induction false} PlayStaysReached(p: Params, s: State, steps: seq<Step>)
    requires Reached(p, s)
    ensures Reached(p, Play(p, s, steps))
  {
    hide Next;
    if steps != [] {
      var front, last := steps[..|steps| - 1], steps[|steps| - 1];
      PlayStaysReached(p, s, front);
      var run :| At(p, run) == Play(p, s, front);
      assert At(p, Then(run, last)) == Play(p, s, steps);
    }
  }

  /** What the environment does to one request: its answers, what others do during its three
      awaits, and at which of them, if any, it is cancelled. */
  datatype Answers = Answers(
    resultToken: string,
    claimToken: string,
    localChecks: bool,
    verifying: seq<Step>,
    verified: bool,
    binding: seq<Step>,
    bound: bool,
    body: seq<Byte>,
    settling: seq<Step>,
    settlement: Settlement,
    cancelled: Option<Await>)

  datatype Await = AtVerify | AtBind | AtSettle

  predicate Foreign(i: nat, step: Step) { step.Tick? || step.i != i }

  predicate Draws(step: Step, token: string) { (step.Admission? || step.ReserveClaim?) && step.token == token }

  /** The steps are not handler `i`'s, and none draws the token it has yet to draw. */
  ghost predicate Apart(i: nat, others: seq<Step>, token: string) {
    forall step :: step in others ==> Foreign(i, step) && !Draws(step, token)
  }

  /** The environment leaves handler `i` to itself. */
  ghost predicate Leaves(i: nat, env: Answers) {
    && Apart(i, env.verifying, env.claimToken)
    && Apart(i, env.binding, env.claimToken)
    && Apart(i, env.settling, env.claimToken)
  }

  /** The answer in handler `i`'s own step is the environment's. */
  predicate OwnAnswer(env: Answers, step: Step) {
    match step
    case Admission(_, token) => token == env.resultToken
    case LocalCheck(_, ok) => ok == env.localChecks
    case VerifyAnswer(_, ok) => ok == env.verified
    case ReserveClaim(_, token) => token == env.claimToken
    case BindAnswer(_, ok, body) => ok == env.bound && body == env.body
    case SettleAnswer(_, settlement) => settlement == env.settlement
    case Cancel(_) => env.cancelled.Some?
    case _ => true
  }

  /** The step is another's during an await, or handler `i`'s own with the environment's answer. */
  predicate Follows(i: nat, env: Answers, step: Step) {
    if Foreign(i, step) then step in env.verifying + env.binding + env.settling else OwnAnswer(env, step)
  }

  /** From state `s0` exactly `steps` lead to `s`, each by another or with `env`'s answer. */
  ghost predicate Took(p: Params, s0: State, s: State, steps: seq<Step>, i: nat, env: Answers) {
    && s == Play(p, s0, steps)
    && forall step :: step in steps ==> Follows(i, env, step)
  }

  lemma TookNothing(p: Params, s: State, i: nat, env: Answers)
    ensures Took(p, s, s, [], i, env)
  {
  }

  lemma TookOne(p: Params, s0: State, s: State, steps: seq<Step>, i: nat, env: Answers, step: Step)
    requires Took(p, s0, s, steps, i, env) && !Foreign(i, step) && OwnAnswer(env, step)
    ensures Took(p, s0, Next(p, s, step), steps + [step], i, env)
  {
    hide Next, Play;
    PlaySnoc(p, s0, steps, step);
  }

  lemma TookOthers(p: Params, s0: State, s: State, steps: seq<Step>, i: nat, env: Answers, others: seq<Step>)
    requires Took(p, s0, s, steps, i, env) && Apart(i, others, env.claimToken)
    requires others == env.verifying || others == env.binding || others == env.settling
    ensures Took(p, s0, Play(p, s, others), steps + others, i, env)
  {
    hide Next, Play;
    PlayAppend(p, s0, steps, others);
  }

  lemma TookStaysReached(p: Params, s0: State, s: State, steps: seq<Step>, i: nat, env: Answers)
    requires Took(p, s0, s, steps, i, env)
    ensures Reached(p, s0) ==> Reached(p, s)
  {
    hide Reached, Play;
    if Reached(p, s0) { PlayStaysReached(p, s0, steps); }
  }

  lemma ForeignKeeps(p: Params, s: State, step: Step, i: nat, token: string)
    requires i < |s.handlers| == |p.requests| && Foreign(i, step) && !Draws(step, token)
    ensures var s' := Next(p, s, step);
            |s'.handlers| == |s.handlers| && s'.handlers[i] == s.handlers[i] && (token !in s.drawn ==> token !in s'.drawn)
  {
    hide Reserve, Commit, Abort, OnAdmission, OnReserveClaim, OnCommitClaim, OnRecord, OnLocal, OnAbortResult;
  }

  /** Every answer a submission needs was given, and the handler was not cancelled before it. */
  predicate AllGood(env: Answers) {
    && env.localChecks && env.verified && env.bound && |env.body| <= 2 * 1024 * 1024
    && env.cancelled != Some(AtVerify) && env.cancelled != Some(AtBind)
  }

  class Service {
    const params: Params
    const results: IdempotencyStore
    const claims: IdempotencyStore
    var clock: real
    var handlers: seq<Handler>
    var drawn: map<string, nat>

    function Current(): State
      reads this, results, claims
    {
      State(clock, results.Contents(), claims.Contents(), handlers, drawn)
    }

    ghost predicate Valid()
      reads this, results, claims
    {
      && results != claims && results.Valid() && claims.Valid()
      && results.config == RESULTS && claims.config == CLAIMS
      && |handlers| == |params.requests|
    }

    constructor (p: Params)
      ensures Valid() && fresh(results) && fresh(claims) && params == p && Current() == Initial(p)
      ensures Reached(params, Current())
    {
      StartIsReached(p);
      params := p;
      results := new IdempotencyStore(RESULTS);
      claims := new IdempotencyStore(CLAIMS);
      clock, drawn := p.start, map[];
      handlers := seq(|p.requests|, _ => FRESH);
    }

    // ---------------------------------------------------------------- one step each

    method ReserveResult(i: nat, token: string) returns (decision: Outcome)
      requires Valid() && Enabled(Current(), Admission(i, token))
      modifies this, results
      ensures Valid() && Current() == Next(params, old(Current()), Admission(i, token))
      ensures handlers[i] == OnAdmission(params.requests[i], old(handlers[i]), decision, clock)
      ensures drawn == old(drawn)[token := i]
    {
      hide Reserve, CachedProof;
      var q := params.requests[i];
      decision := results.Reserve(clock, ResultKey(q), q.fingerprint, token);
      drawn := drawn[token := i];
      handlers := handlers[i := OnAdmission(q, handlers[i], decision, clock)];
    }

    method ReserveAuthorization(i: nat, token: string) returns (decision: Outcome)
      requires Valid() && Enabled(Current(), ReserveClaim(i, token))
      modifies this, claims
      ensures Valid() && Current() == Next(params, old(Current()), ReserveClaim(i, token))
      ensures handlers[i] == OnReserveClaim(old(handlers[i]), decision, clock)
    {
      hide Reserve;
      var q := params.requests[i];
      decision := claims.Reserve(clock, ClaimKey(q), q.fingerprint, token);
      drawn := drawn[token := i];
      handlers := handlers[i := OnReserveClaim(handlers[i], decision, clock)];
    }

    method CommitPaymentClaim(i: nat) returns (ok: bool)
      requires Valid() && Enabled(Current(), CommitClaim(i)) && handlers[i].claim.Some?
      modifies this, claims
      ensures Valid() && Current() == Next(params, old(Current()), CommitClaim(i))
      ensures ok <==> handlers[i].phase.Claimed?
      ensures !ok ==> handlers[i] == old(handlers[i]).(phase := Unwinding)
      ensures ok ==> handlers[i] == old(handlers[i]).(phase := Claimed, claimCommittedAt := Some(clock))
    {
      hide Commit;
      var o := claims.Commit(clock, handlers[i].claim.value, TOMBSTONE);
      handlers := handlers[i := OnCommitClaim(handlers[i], o, clock)];
      ok := o.Committed?;
    }

    /** Success and terminal failure alike are recorded for replay, if they can be stored. */
    method RecordSettlement(i: nat)
      requires Valid() && Enabled(Current(), RecordResult(i)) && handlers[i].reservation.Some?
      modifies this, results
      ensures Valid() && Current() == Next(params, old(Current()), RecordResult(i))
      ensures handlers[i] == old(handlers[i]).(phase := Ended(Finished), recordedAt := handlers[i].recordedAt)
    {
      hide Commit;
      var h := handlers[i];
      if h.rendered.None? {
        handlers := handlers[i := h.(phase := Ended(Finished))];
      } else {
        var o := results.Commit(clock, h.reservation.value, h.rendered.value);
        handlers := handlers[i := OnRecord(h, o, clock)];
      }
    }

    method ReleaseResult(i: nat)
      requires Valid() && Enabled(Current(), AbortResult(i)) && handlers[i].reservation.Some?
      modifies this, results
      ensures Valid() && Current() == Next(params, old(Current()), AbortResult(i))
      ensures handlers[i] == OnAbortResult(old(handlers[i]))
    {
      hide Abort;
      var _ := results.Abort(clock, handlers[i].reservation.value);
      handlers := handlers[i := OnAbortResult(handlers[i])];
    }

    method ReleaseClaim(i: nat)
      requires Valid() && Enabled(Current(), AbortClaim(i)) && handlers[i].claim.Some?
      modifies this, claims
      ensures Valid() && Current() == Next(params, old(Current()), AbortClaim(i))
      ensures handlers[i] == old(handlers[i]).(phase := Ended(Failed))
    {
      hide Abort;
      var _ := claims.Abort(clock, handlers[i].claim.value);
      handlers := handlers[i := handlers[i].(phase := Ended(Failed))];
    }

    method Proceed(step: Step)
      requires Valid() && Local(step) && Enabled(Current(), step)
      modifies `handlers
      ensures Valid() && Current() == Next(params, old(Current()), step)
      ensures handlers[step.i] == OnLocal(params, params.requests[step.i], old(handlers[step.i]), step, clock)
    {
      hide ResultResponse, Cacheable;
      var i := step.i;
      handlers := handlers[i := OnLocal(params, params.requests[i], handlers[i], step, clock)];
    }

    /** Any step of any handler, or time passing, on the service's own objects. */
    method Perform(step: Step)
      requires Valid()
      modifies this, results, claims
      ensures Valid() && Current() == Next(params, old(Current()), step)
    {
      hide Reserve, Commit, Abort, ValidTable, OnAdmission, OnReserveClaim, OnCommitClaim, OnRecord, OnLocal, OnAbortResult;
      if !Enabled(Current(), step) {
        return;
      }
      if step.Tick? {
        clock := clock + step.seconds;
      } else if Local(step) {
        Proceed(step);
      } else if step.Admission? {
        var _ := ReserveResult(step.i, step.token);
      } else if step.ReserveClaim? {
        var _ := ReserveAuthorization(step.i, step.token);
      } else if step.CommitClaim? {
        if handlers[step.i].claim.Some? {
          var _ := CommitPaymentClaim(step.i);
        }
      } else if step.AbortClaim? {
        if handlers[step.i].claim.Some? {
          ReleaseClaim(step.i);
        }
      } else if handlers[step.i].reservation.Some? {
        if step.RecordResult? {
          RecordSettlement(step.i);
        } else {
          ReleaseResult(step.i);
        }
      }
    }

    // ---------------------------------------------------------------- the handler

    /** An await of handler `i`: the others run, `i` and its unused token stay as they are. */
    method Wait(i: nat, others: seq<Step>, ghost token: string)
      requires Valid() && i < |handlers|
      requires Apart(i, others, token)
      modifies this, results, claims
      ensures Valid() && Current() == Play(params, old(Current()), others)
      ensures handlers[i] == old(handlers[i]) && (token !in old(drawn) ==> token !in drawn)
    {
      hide Next;
      ghost var s := Current();
      for n := 0 to |others|
        invariant Valid() && Current() == Play(params, s, others[..n])
        invariant handlers[i] == s.handlers[i] && (token !in s.drawn ==> token !in drawn)
      {
        assert others[n] in others && others[..n + 1] == others[..n] + [others[n]];
        PlaySnoc(params, s, others[..n], others[n]);
        ForeignKeeps(params, Current(), others[n], i, token);
        Perform(others[n]);
      }
      assert others[..|others|] == others;
    }

    method Take(step: Step, i: nat, env: Answers, ghost s0: State, ghost before: seq<Step>) returns (ghost steps: seq<Step>)
      requires Valid() && Local(step) && step.i == i && OwnAnswer(env, step) && Enabled(Current(), step)
      requires Took(params, s0, Current(), before, i, env)
      modifies `handlers
      ensures Valid() && Took(params, s0, Current(), steps, i, env)
      ensures handlers[i] == OnLocal(params, params.requests[i], old(handlers[i]), step, clock)
    {
      hide Next, OnLocal, Took;
      TookOne(params, s0, Current(), before, i, env, step);
      Proceed(step);
      steps := before + [step];
    }

    method AwaitOthers(others: seq<Step>, i: nat, env: Answers, ghost s0: State, ghost before: seq<Step>)
      returns (ghost steps: seq<Step>)
      requires Valid() && i < |handlers| && Apart(i, others, env.claimToken)
      requires others == env.verifying || others == env.binding || others == env.settling
      requires Took(params, s0, Current(), before, i, env)
      modifies this, results, claims
      ensures Valid() && Took(params, s0, Current(), steps, i, env)
      ensures handlers[i] == old(handlers[i]) && (env.claimToken !in old(drawn) ==> env.claimToken !in drawn)
    {
      hide Next, Play, Took;
      TookOthers(params, s0, Current(), before, i, env, others);
      Wait(i, others, env.claimToken);
      steps := before + others;
    }

    /** One paid request from admission to its end. */
    method TransactionPreflight(i: nat, env: Answers) returns (ghost steps: seq<Step>)
      requires Valid() && i < |handlers| && handlers[i] == FRESH && Leaves(i, env)
      requires env.resultToken !in drawn && env.claimToken !in drawn && env.resultToken != env.claimToken
      modifies this, results, claims
      ensures Valid() && Took(params, old(Current()), Current(), steps, i, env)
      ensures handlers[i].phase.Ended?
      ensures handlers[i].submittedAt.Some? ==> AllGood(env)
      ensures old(Reached(params, Current())) ==> Reached(params, Current())
    {
      ghost var s0 := Current();
      hide Next, Play, Took, CachedProof, Reached, Apart;
      steps := [];
      TookNothing(params, s0, i, env);
      TookOne(params, s0, Current(), steps, i, env, Admission(i, env.resultToken));
      var decision := ReserveResult(i, env.resultToken);
      steps := [] + [Admission(i, env.resultToken)];
      if !decision.Granted? {
        TookStaysReached(params, s0, Current(), steps, i, env);
        return;
      }
      var settlementAttempted;
      settlementAttempted, steps := Attempt(i, env, s0, steps);
      if handlers[i].phase.Unwinding? && !settlementAttempted {
        steps := Unwind(i, env, s0, steps);
      }
      TookStaysReached(params, s0, Current(), steps, i, env);
    }

    /** The exception cleanup: release the result, then the claim if there is one. */
    method Unwind(i: nat, env: Answers, ghost s0: State, ghost before: seq<Step>) returns (ghost steps: seq<Step>)
      requires Valid() && i < |handlers| && Took(params, s0, Current(), before, i, env)
      requires handlers[i].phase.Unwinding? && handlers[i].reservation.Some?
      modifies this, results, claims
      ensures Valid() && Took(params, s0, Current(), steps, i, env)
      ensures handlers[i].phase == Ended(Failed) && handlers[i].claim == old(handlers[i].claim)
      ensures handlers[i].submittedAt == old(handlers[i].submittedAt)
    {
      hide Next, Took;
      TookOne(params, s0, Current(), before, i, env, AbortResult(i));
      ReleaseResult(i);
      steps := before + [AbortResult(i)];
      if handlers[i].claim.Some? {
        TookOne(params, s0, Current(), steps, i, env, AbortClaim(i));
        ReleaseClaim(i);
        steps := steps + [AbortClaim(i)];
      }
    }

    /** The body of the source's `try`: it ends the request, or leaves it to be unwound, which
        happens only if no settlement was attempted. */
    method Attempt(i: nat, env: Answers, ghost s0: State, ghost before: seq<Step>)
      returns (settlementAttempted: bool, ghost steps: seq<Step>)
      requires Valid() && i < |handlers| && Took(params, s0, Current(), before, i, env)
      requires handlers[i].reservation.Some? && handlers[i] == FRESH.(phase := Admitted, reservation := handlers[i].reservation)
      requires Leaves(i, env) && env.claimToken !in drawn
      modifies this, results, claims
      ensures Valid() && Took(params, s0, Current(), steps, i, env)
      ensures handlers[i].phase.Ended? || handlers[i].phase.Unwinding?
      ensures handlers[i].phase.Unwinding? ==>
                !settlementAttempted && handlers[i].submittedAt.None? && handlers[i].reservation.Some?
      ensures handlers[i].submittedAt.Some? ==> AllGood(env)
    {
      hide Next, Play, Took, Apart, ResultResponse, Cacheable;
      steps, settlementAttempted := before, false;

      steps := Take(LocalCheck(i, env.localChecks), i, env, s0, steps);
      if handlers[i].phase.Unwinding? {
        return;
      }

      steps := AwaitOthers(env.verifying, i, env, s0, steps);
      if env.cancelled == Some(AtVerify) {
        steps := Take(Cancel(i), i, env, s0, steps);
        return;
      }
      steps := Take(VerifyAnswer(i, env.verified), i, env, s0, steps);
      if !env.verified {
        return;
      }

      TookOne(params, s0, Current(), steps, i, env, ReserveClaim(i, env.claimToken));
      var decision := ReserveAuthorization(i, env.claimToken);
      steps := steps + [ReserveClaim(i, env.claimToken)];
      if !decision.Granted? {
        return;
      }
      settlementAttempted, steps := BindAndSettle(i, env, s0, steps);
    }

    /** From the source binding to the end; the claim is committed before anything is
        submitted, and `settlementAttempted` is set once it is. */
    method BindAndSettle(i: nat, env: Answers, ghost s0: State, ghost before: seq<Step>)
      returns (settlementAttempted: bool, ghost steps: seq<Step>)
      requires Valid() && i < |handlers| && Took(params, s0, Current(), before, i, env)
      requires handlers[i].phase.Binding? && handlers[i].claim.Some? && handlers[i].reservation.Some?
      requires handlers[i].claimCommittedAt.None? && handlers[i].submittedAt.None?
      requires Leaves(i, env)
      modifies this, results, claims
      ensures Valid() && Took(params, s0, Current(), steps, i, env)
      ensures handlers[i].phase.Ended? || handlers[i].phase.Unwinding?
      ensures handlers[i].phase.Unwinding? ==>
                !settlementAttempted && handlers[i].submittedAt.None? && handlers[i].reservation.Some?
      ensures handlers[i].submittedAt.Some? ==>
                env.bound && |env.body| <= 2 * 1024 * 1024 && env.cancelled != Some(AtBind)
      ensures settlementAttempted ==> handlers[i].claimCommittedAt.Some? && handlers[i].phase.Ended?
    {
      hide Next, Play, Took, Apart, ResultResponse, Cacheable;
      steps, settlementAttempted := before, false;

      steps := AwaitOthers(env.binding, i, env, s0, steps);
      if env.cancelled == Some(AtBind) {
        steps := Take(Cancel(i), i, env, s0, steps);
        return;
      }
      steps := Take(BindAnswer(i, env.bound, env.body), i, env, s0, steps);
      if handlers[i].phase.Unwinding? {
        return;
      }

      TookOne(params, s0, Current(), steps, i, env, CommitClaim(i));
      var claimed := CommitPaymentClaim(i);
      steps := steps + [CommitClaim(i)];
      if !claimed {
        return;
      }
      settlementAttempted := true;
      steps := Settle(i, env, s0, steps);
    }

    /** Submit, await the facilitator, and record its answer.  A handler cancelled here leaves
        the settlement running and its claim in place. */
    method Settle(i: nat, env: Answers, ghost s0: State, ghost before: seq<Step>) returns (ghost steps: seq<Step>)
      requires Valid() && i < |handlers| && Took(params, s0, Current(), before, i, env)
      requires handlers[i].phase.Claimed? && handlers[i].reservation.Some?
      requires Leaves(i, env)
      modifies this, results, claims
      ensures Valid() && Took(params, s0, Current(), steps, i, env)
      ensures handlers[i].phase == Ended(if env.cancelled == Some(AtSettle) then Cancelled else Finished)
      ensures handlers[i].submittedAt == Some(old(clock)) && handlers[i].claimCommittedAt == old(handlers[i].claimCommittedAt)
    {
      hide Next, Play, Took, Apart, ResultResponse, Cacheable;
      steps := before;

      steps := Take(Submit(i), i, env, s0, steps);

      steps := AwaitOthers(env.settling, i, env, s0, steps);
      if env.cancelled == Some(AtSettle) {
        steps := Take(Cancel(i), i, env, s0, steps);
        return;
      }
      steps := Conclude(i, env, s0, steps);
    }

    /** The facilitator answered: success and terminal failure alike end the request. */
    method Conclude(i: nat, env: Answers, ghost s0: State, ghost before: seq<Step>) returns (ghost steps: seq<Step>)
      requires Valid() && i < |handlers| && Took(params, s0, Current(), before, i, env)
      requires handlers[i].phase.Settling? && handlers[i].reservation.Some?
      modifies this, results
      ensures Valid() && Took(params, s0, Current(), steps, i, env)
      ensures handlers[i].phase == Ended(Finished)
      ensures handlers[i].submittedAt == old(handlers[i].submittedAt)
      ensures handlers[i].claimCommittedAt == old(handlers[i].claimCommittedAt)
    {
      hide Next, Play, Took, ResultResponse, Cacheable;
      steps := Take(SettleAnswer(i, env.settlement), i, env, s0, before);
      TookOne(params, s0, Current(), steps, i, env, RecordResult(i));
      RecordSettlement(i);
      steps := steps + [RecordResult(i)];
    }
  }
}

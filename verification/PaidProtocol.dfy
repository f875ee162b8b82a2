/** The paid request as a protocol over two ledgers and a clock.

Any number of handlers run `transaction_preflight` concurrently.  A step is one ledger
operation or one environment answer, so handlers interleave more finely than at the awaits of
the source; a handler may be cancelled at each await, which skips the exception cleanup.  The
facilitator, the source resolver and the local checks answer arbitrarily. */
module PaidProtocol {
  import opened Basics
  import opened Ledger

  const PAYMENT_CLAIM_TTL_SECONDS := 900.0
  const PROTECTED_RESERVATION_TTL_SECONDS := 120.0
  const MAX_PAYMENT_TIMEOUT_SECONDS := 300
  const MAX_HEADER_LINE_BYTES := 8192
  const MAX_CACHED_RESULT_BYTES := 2 * 1024 * 1024
  const PROOF_HEADER := "Lucent-Internal-Payment-Proof"

  /** The ledger keyed by Idempotency-Key. */
  const RESULTS := Config(PAYMENT_CLAIM_TTL_SECONDS, PROTECTED_RESERVATION_TTL_SECONDS,
                          512, MAX_CACHED_RESULT_BYTES, 32 * 1024 * 1024, false)

  /** The ledger keyed by signed-transfer fingerprint. */
  const CLAIMS := Config(PAYMENT_CLAIM_TTL_SECONDS, PROTECTED_RESERVATION_TTL_SECONDS,
                         4096, 1024, 4 * 1024 * 1024, false)

  const TOMBSTONE := Response(204, [], [Header("Content-Type", "application/octet-stream")])

  /** A paid request: its headers, its canonical fingerprint, and what its proof decodes to. */
  datatype Request = Request(
    key: string,
    fingerprint: string,
    proof: string,
    proofFingerprint: string,
    authorization: string,
    validAfter: int,
    validBefore: int)

  datatype Params = Params(requests: seq<Request>, timeout: int, start: real)

  /** Hashes do not collide: equal fingerprints are those of equal proofs, and a transfer's
      fingerprint determines its window. */
  ghost predicate WellFormed(p: Params) {
    && 1 <= p.timeout <= MAX_PAYMENT_TIMEOUT_SECONDS
    && (forall i, j :: 0 <= i < |p.requests| && 0 <= j < |p.requests| ==>
          && (p.requests[i].proofFingerprint == p.requests[j].proofFingerprint <==>
                p.requests[i].proof == p.requests[j].proof)
          && (p.requests[i].authorization == p.requests[j].authorization ==>
                p.requests[i].validBefore == p.requests[j].validBefore))
  }

  datatype Ending = Rejected | Replayed(response: Response, at: real) | ReplayRefused | Failed | Cancelled | Finished

  datatype Phase =
    | Idle
    | Admitted                                // result key reserved, local checks next
    | Verifying                               // awaiting the facilitator's verify
    | Verified                                // about to reserve the claim
    | Binding                                 // awaiting the verified source
    | Bound                                   // about to commit the claim
    | Claimed                                 // claim committed, about to submit
    | Settling                                // awaiting the facilitator's settle
    | Settled                                 // about to record the result, if it was renderable
    | Unwinding                               // about to abort the result reservation
    | UnwindingClaim                          // about to abort the claim reservation
    | Ended(ending: Ending)

  datatype Handler = Handler(
    phase: Phase,
    reservation: Option<Reservation>,
    checkedAt: Option<real>,
    claim: Option<Reservation>,
    claimReservedAt: Option<real>,
    body: seq<Byte>,                          // the answer a receipt will be attached to
    claimCommittedAt: Option<real>,
    submittedAt: Option<real>,
    rendered: Option<Response>,               // what the settlement rendered to
    recordedAt: Option<real>)

  const FRESH := Handler(Idle, None, None, None, None, [], None, None, None, None)

  /** `drawn` says which handler drew each ownership token. */
  datatype State = State(clock: real, results: Table, claims: Table, handlers: seq<Handler>, drawn: map<string, nat>)

  function Initial(p: Params): State {
    State(p.start, EMPTY, EMPTY, seq(|p.requests|, _ => FRESH), map[])
  }

  datatype Settlement =
    | Receipt(receipt: string)
    | Failure(status: int, body: seq<Byte>, challenge: string)

  datatype Step =
    | Tick(seconds: real)
    | Admission(i: nat, token: string)
    | LocalCheck(i: nat, ok: bool)
    | VerifyAnswer(i: nat, ok: bool)
    | ReserveClaim(i: nat, token: string)
    | BindAnswer(i: nat, ok: bool, body: seq<Byte>)
    | CommitClaim(i: nat)
    | Submit(i: nat)
    | SettleAnswer(i: nat, settlement: Settlement)
    | RecordResult(i: nat)
    | AbortResult(i: nat)
    | AbortClaim(i: nat)
    | Cancel(i: nat)

  // ------------------------------------------------------------------ responses

  /** The proof bound into a cached response; a later header of the same name wins. */
  function CachedProof(headers: seq<Header>): Option<string> {
    if headers == [] then None
    else
      var last := headers[|headers| - 1];
      if last.name == PROOF_HEADER then Some(last.value) else CachedProof(headers[..|headers| - 1])
  }

  /** The response a settlement renders to; a success carries the body bound before it. */
  function ResultResponse(q: Request, bound: seq<Byte>, settlement: Settlement): Response {
    match settlement
    case Receipt(receipt) =>
      Response(200, bound, [Header("X-Lucent-Access", "x402"), Header("PAYMENT-RESPONSE", receipt),
                            Header("Content-Type", "application/json"), Header(PROOF_HEADER, q.proofFingerprint)])
    case Failure(status, body, challenge) =>
      Response(status, body, [Header("Content-Type", "application/problem+json"), Header(PROOF_HEADER, q.proofFingerprint)]
                             + if status == 402 then [Header("PAYMENT-REQUIRED", challenge)] else [])
  }

  predicate Cacheable(r: Response) {
    && 100 <= r.status <= 599
    && forall h :: h in r.headers ==>
         && Utf8Length(h.name) + Utf8Length(h.value) <= MAX_HEADER_LINE_BYTES
         && '\r' !in h.value && '\n' !in h.value
  }

  // ------------------------------------------------------------------ steps

  function ResultKey(q: Request): Key { Key("x402", q.key) }

  function ClaimKey(q: Request): Key { Key("x402-authorization", q.authorization) }

  predicate InWindow(p: Params, q: Request, now: real) {
    q.validAfter as real <= now < q.validBefore as real <= now + p.timeout as real
  }

  predicate Awaiting(ph: Phase) { ph.Verifying? || ph.Binding? || ph.Settling? }

  predicate Enabled(s: State, step: Step) {
    match step
    case Tick(seconds) => 0.0 <= seconds
    case _ =>
      step.i < |s.handlers| &&
      var ph := s.handlers[step.i].phase;
      match step
      case Tick(_) => true
      case Admission(_, token) => ph.Idle? && token !in s.drawn
      case LocalCheck(_, _) => ph.Admitted?
      case VerifyAnswer(_, _) => ph.Verifying?
      case ReserveClaim(_, token) => ph.Verified? && token !in s.drawn
      case BindAnswer(_, _, _) => ph.Binding?
      case CommitClaim(_) => ph.Bound?
      case Submit(_) => ph.Claimed?
      case SettleAnswer(_, _) => ph.Settling?
      case RecordResult(_) => ph.Settled?
      case AbortResult(_) => ph.Unwinding?
      case AbortClaim(_) => ph.UnwindingClaim?
      case Cancel(_) => Awaiting(ph)
  }

  function Put(s: State, i: nat, h: Handler): State
    requires i < |s.handlers|
  {
    s.(handlers := s.handlers[i := h])
  }

  // What a handler does with an answer of a ledger, or of the environment.

  function OnAdmission(q: Request, h: Handler, o: Outcome, now: real): Handler {
    match o
    case Granted(r) => h.(phase := Admitted, reservation := Some(r))
    case Replay(response) =>
      var proof := CachedProof(response.headers);
      h.(phase := Ended(if proof.None? || proof.value == q.proofFingerprint then Replayed(response, now) else ReplayRefused))
    case _ => h.(phase := Ended(Rejected))
  }

  function OnReserveClaim(h: Handler, o: Outcome, now: real): Handler {
    match o
    case Granted(r) => h.(phase := Binding, claim := Some(r), claimReservedAt := Some(now))
    case _ => h.(phase := Unwinding)
  }

  function OnCommitClaim(h: Handler, o: Outcome, now: real): Handler {
    if o.Committed? then h.(phase := Claimed, claimCommittedAt := Some(now)) else h.(phase := Unwinding)
  }

  function OnRecord(h: Handler, o: Outcome, now: real): Handler {
    h.(phase := Ended(Finished), recordedAt := if o.Committed? then Some(now) else None)
  }

  function OnAbortResult(h: Handler): Handler {
    h.(phase := if h.claim.Some? then UnwindingClaim else Ended(Failed))
  }

  /** Steps that touch no ledger. */
  predicate Local(step: Step) {
    step.LocalCheck? || step.VerifyAnswer? || step.BindAnswer? || step.Submit? || step.SettleAnswer? || step.Cancel?
  }

  function OnLocal(p: Params, q: Request, h: Handler, step: Step, now: real): Handler
    requires Local(step)
  {
    match step
    case LocalCheck(_, ok) =>
      if ok && InWindow(p, q, now) then h.(phase := Verifying, checkedAt := Some(now)) else h.(phase := Unwinding)
    case VerifyAnswer(_, ok) => h.(phase := if ok then Verified else Unwinding)
    case BindAnswer(_, ok, body) =>
      if ok && |body| <= MAX_CACHED_RESULT_BYTES then h.(phase := Bound, body := body) else h.(phase := Unwinding)
    case Submit(_) => h.(phase := Settling, submittedAt := Some(now))
    case SettleAnswer(_, settlement) =>
      var r := ResultResponse(q, h.body, settlement);
      h.(phase := Settled, rendered := if Cacheable(r) then Some(r) else None)
    case Cancel(_) => h.(phase := Ended(Cancelled))
  }

  /** The handler moves on with what the ledger answered: table `t` and outcome `o`. */
  function AfterAdmission(p: Params, s: State, i: nat, token: string, t: Table, o: Outcome): State
    requires i < |s.handlers| == |p.requests|
  {
    Put(s.(results := t, drawn := s.drawn[token := i]), i, OnAdmission(p.requests[i], s.handlers[i], o, s.clock))
  }

  function AfterReserveClaim(s: State, i: nat, token: string, t: Table, o: Outcome): State
    requires i < |s.handlers|
  {
    Put(s.(claims := t, drawn := s.drawn[token := i]), i, OnReserveClaim(s.handlers[i], o, s.clock))
  }

  function AfterCommitClaim(s: State, i: nat, t: Table, o: Outcome): State
    requires i < |s.handlers|
  {
    Put(s.(claims := t), i, OnCommitClaim(s.handlers[i], o, s.clock))
  }

  function AfterRecord(s: State, i: nat, t: Table, o: Outcome): State
    requires i < |s.handlers|
  {
    Put(s.(results := t), i, OnRecord(s.handlers[i], o, s.clock))
  }

  function AfterAbortResult(s: State, i: nat, t: Table): State
    requires i < |s.handlers|
  {
    Put(s.(results := t), i, OnAbortResult(s.handlers[i]))
  }

  function AfterAbortClaim(s: State, i: nat, t: Table): State
    requires i < |s.handlers|
  {
    Put(s.(claims := t), i, s.handlers[i].(phase := Ended(Failed)))
  }

  /** One step; a step that is not enabled changes nothing. */
  function Next(p: Params, s: State, step: Step): State {
    if |s.handlers| != |p.requests| || !Enabled(s, step) then s
    else if step.Tick? then s.(clock := s.clock + step.seconds)
    else if Local(step) then Put(s, step.i, OnLocal(p, p.requests[step.i], s.handlers[step.i], step, s.clock))
    else
      var h, q := s.handlers[step.i], p.requests[step.i];
      match step
      case Admission(i, token) =>
        var (t, o) := Reserve(RESULTS, s.results, s.clock, ResultKey(q), q.fingerprint, token);
        AfterAdmission(p, s, i, token, t, o)
      case ReserveClaim(i, token) =>
        var (t, o) := Reserve(CLAIMS, s.claims, s.clock, ClaimKey(q), q.fingerprint, token);
        AfterReserveClaim(s, i, token, t, o)
      case CommitClaim(i) =>
        if h.claim.None? then s
        else
          var (t, o) := Commit(CLAIMS, s.claims, s.clock, h.claim.value, TOMBSTONE);
          AfterCommitClaim(s, i, t, o)
      case RecordResult(i) =>
        if h.reservation.None? then s
        else if h.rendered.None? then Put(s, i, h.(phase := Ended(Finished)))
        else
          var (t, o) := Commit(RESULTS, s.results, s.clock, h.reservation.value, h.rendered.value);
          AfterRecord(s, i, t, o)
      case AbortResult(i) =>
        if h.reservation.None? then s
        else AfterAbortResult(s, i, Abort(s.results, s.clock, h.reservation.value).0)
      case AbortClaim(i) =>
        if h.claim.None? then s
        else AfterAbortClaim(s, i, Abort(s.claims, s.clock, h.claim.value).0)
      case _ => s
  }

  datatype Run = Start | Then(before: Run, step: Step)

  function At(p: Params, run: Run): State {
    match run
    case Start => Initial(p)
    case Then(before, step) => Next(p, At(p, before), step)
  }
}

/** When a settled result can be replayed, and when it cannot, over every run. */
module PaidReplays {
  import opened Basics
  import opened Ledger
  import opened LedgerAnswers
  import opened LedgerLaws
  import opened Orders
  import opened PaidProtocol
  import opened PaidInvariant
  import opened PaidSafety

  // ------------------------------------------------------------------ when a result is recorded

  /** Recording a settled result succeeds exactly when it could be rendered, the reservation it
      was admitted under has not expired, and body and headers together fit the store. */
  lemma RecordedIff(p: Params, run: Run, i: nat)
    requires i < |At(p, run).handlers| && At(p, run).handlers[i].phase.Settled?
    ensures At(p, run).handlers[i].reservation.Some?
    ensures var s := At(p, run);
            var h, s' := s.handlers[i], Next(p, s, RecordResult(i));
            && |s'.handlers| == |s.handlers|
            && s'.handlers[i].phase == Ended(Finished) && s'.handlers[i].rendered == h.rendered
            && (s'.handlers[i].recordedAt.Some? <==>
                  && h.rendered.Some? && s.clock < h.reservation.value.expiresAt
                  && Size(h.rendered.value) <= MAX_CACHED_RESULT_BYTES)
  {
    hide At, ValidTable, Commit, Claims, Replays, AcceptableInput, CachedProof, Size;
    Reachable(p, run);
    var s := At(p, run);
    assert HandlerOk(p, s, i);
    var h := s.handlers[i];
    if h.rendered.Some? {
      CommitHas(RESULTS, s.results, s.clock, h.reservation.value, h.rendered.value);
      if s.clock < h.reservation.value.expiresAt && Size(h.rendered.value) <= MAX_CACHED_RESULT_BYTES {
        StillOwned(p, s, i);
        CommitSucceeds(RESULTS, s.results, s.clock, h.reservation.value, h.rendered.value);
      }
      CommitNeeds(p, s, i);
    }
  }

  lemma StillOwned(p: Params, s: State, i: nat)
    requires |s.handlers| == |p.requests| && Handlers(p, s) && Results(p, s) && i < |s.handlers|
    requires s.handlers[i].phase.Settled? && s.handlers[i].reservation.Some?
    requires s.clock < s.handlers[i].reservation.value.expiresAt
    ensures var r := s.handlers[i].reservation.value; Owns(s.results, r) && s.clock < s.results.at[r.key].expiresAt
  {
    hide AcceptableInput, CachedProof;
    assert HandlerOk(p, s, i) && ResultKept(p, s, i);
    assert ResultOk(p, s, ResultKey(p.requests[i]));
  }

  lemma CommitNeeds(p: Params, s: State, i: nat)
    requires |s.handlers| == |p.requests| && Handlers(p, s) && Results(p, s) && i < |s.handlers|
    requires s.handlers[i].phase.Settled? && s.handlers[i].reservation.Some? && s.handlers[i].rendered.Some?
    requires ValidTable(RESULTS, s.results)
    ensures var h := s.handlers[i];
            Commit(RESULTS, s.results, s.clock, h.reservation.value, h.rendered.value).1.Committed? ==>
              s.clock < h.reservation.value.expiresAt && Size(h.rendered.value) <= MAX_CACHED_RESULT_BYTES
  {
    var h := s.handlers[i];
    CommitHas(RESULTS, s.results, s.clock, h.reservation.value, h.rendered.value);
    CommitFits(RESULTS, s.results, s.clock, h.reservation.value, h.rendered.value);
    hide ValidTable, Commit, AcceptableInput, CachedProof, Size;
    assert HandlerOk(p, s, i);
    if Commit(RESULTS, s.results, s.clock, h.reservation.value, h.rendered.value).1.Committed? {
      assert ResultOk(p, s, ResultKey(p.requests[i]));
    }
  }

  lemma CommitFits(c: Config, t: Table, now: real, r: Reservation, response: Response)
    ensures Commit(c, t, now, r, response).1.Committed? ==> Size(response) <= c.maxResponseBytes
  {
  }

  /** What the settlement's answer, and nothing later, decides: the response it renders to is
      recorded exactly when it is cacheable, arrives before the reservation expires, and fits.  A
      success's body alone always fits; only its headers can make it too large. */
  lemma StoredIff(p: Params, run: Run, i: nat, settlement: Settlement)
    requires i < |At(p, run).handlers| && At(p, run).handlers[i].phase.Settling?
    ensures i < |p.requests| && At(p, run).handlers[i].reservation.Some?
    ensures var s := At(p, run);
            var h, s' := s.handlers[i], Next(p, Next(p, s, SettleAnswer(i, settlement)), RecordResult(i));
            var r := ResultResponse(p.requests[i], h.body, settlement);
            && |s'.handlers| == |s.handlers| && s'.handlers[i].phase == Ended(Finished)
            && (s'.handlers[i].recordedAt.Some? <==>
                  Cacheable(r) && s.clock < h.reservation.value.expiresAt
                  && |r.body| + HeaderBytes(r.headers) <= MAX_CACHED_RESULT_BYTES)
            && (Cacheable(r) ==> s'.handlers[i].rendered == Some(r))
            && (settlement.Receipt? ==> |r.body| <= MAX_CACHED_RESULT_BYTES)
  {
    hide At, Inv, Cacheable, HeaderBytes, ResultResponse, Next;
    Reachable(p, run);
    var s := At(p, run);
    SettlingOk(p, s, i);
    var after := Then(run, SettleAnswer(i, settlement));
    Unrolled(p, run, SettleAnswer(i, settlement));
    Answered(p, s, i, settlement);
    RecordedIff(p, after, i);
    BodyOf(p.requests[i], s.handlers[i].body, settlement);
  }

  lemma SettlingOk(p: Params, s: State, i: nat)
    requires Inv(p, s) && i < |s.handlers| && s.handlers[i].phase.Settling?
    ensures |s.handlers| == |p.requests| && s.handlers[i].reservation.Some? && |s.handlers[i].body| <= MAX_CACHED_RESULT_BYTES
  {
    hide ValidTable, Results, Claims, Replays, AcceptableInput, CachedProof;
    assert HandlerOk(p, s, i);
  }

  lemma Answered(p: Params, s: State, i: nat, settlement: Settlement)
    requires |s.handlers| == |p.requests| && i < |s.handlers| && s.handlers[i].phase.Settling?
    ensures var s', r := Next(p, s, SettleAnswer(i, settlement)), ResultResponse(p.requests[i], s.handlers[i].body, settlement);
            && |s'.handlers| == |s.handlers| && s'.clock == s.clock
            && s'.handlers[i] == s.handlers[i].(phase := Settled, rendered := if Cacheable(r) then Some(r) else None)
  {
    hide ResultResponse, Cacheable;
  }

  lemma BodyOf(q: Request, body: seq<Byte>, settlement: Settlement)
    ensures settlement.Receipt? ==> ResultResponse(q, body, settlement).body == body
  {
  }

  /** The value of the last header of that name. */
  function HeaderValue(headers: seq<Header>, name: string): Option<string> {
    if headers == [] then None
    else
      var n := |headers| - 1;
      if headers[n].name == name then Some(headers[n].value) else HeaderValue(headers[..n], name)
  }

  lemma {:induction false} ValueOfLast(headers: seq<Header>, k: nat)
    requires k < |headers| && forall j :: k < j < |headers| ==> headers[j].name != headers[k].name
    ensures HeaderValue(headers, headers[k].name) == Some(headers[k].value)
  {
    var n := |headers| - 1;
    if k < n { ValueOfLast(headers[..n], k); }
  }

  lemma NamesApart()
    ensures "PAYMENT-RESPONSE" != "Content-Type" && "PAYMENT-RESPONSE" != "Lucent-Internal-Payment-Proof"
    ensures "Content-Type" != "Lucent-Internal-Payment-Proof" && "X-Lucent-Access" != "PAYMENT-RESPONSE"
    ensures "PAYMENT-REQUIRED" != "Lucent-Internal-Payment-Proof" && "X-Lucent-Access" != "Content-Type"
    ensures "X-Lucent-Access" != "Lucent-Internal-Payment-Proof"
  {
    assert "PAYMENT-RESPONSE"[0] != "Content-Type"[0] && "PAYMENT-RESPONSE"[0] != "Lucent-Internal-Payment-Proof"[0];
    assert "Content-Type"[0] != "Lucent-Internal-Payment-Proof"[0] && "X-Lucent-Access"[0] != "PAYMENT-RESPONSE"[0];
    assert "PAYMENT-REQUIRED"[0] != "Lucent-Internal-Payment-Proof"[0] && "X-Lucent-Access"[0] != "Content-Type"[0];
    assert "X-Lucent-Access"[0] != "Lucent-Internal-Payment-Proof"[0];
  }

  /** What a recorded response tells its reader: the bound answer with its receipt, or the failure
      with its status and, when payment is required again, the challenge; and always the proof. */
  lemma RenderedSays(q: Request, body: seq<Byte>, settlement: Settlement)
    ensures var r := ResultResponse(q, body, settlement);
            && HeaderValue(r.headers, "Lucent-Internal-Payment-Proof") == Some(q.proofFingerprint)
            && match settlement
               case Receipt(receipt) =>
                 && r.status == 200 && r.body == body
                 && HeaderValue(r.headers, "PAYMENT-RESPONSE") == Some(receipt)
                 && HeaderValue(r.headers, "Content-Type") == Some("application/json")
                 && HeaderValue(r.headers, "X-Lucent-Access") == Some("x402")
               case Failure(status, problem, challenge) =>
                 && r.status == status && r.body == problem
                 && HeaderValue(r.headers, "Content-Type") == Some("application/problem+json")
                 && (status == 402 ==> HeaderValue(r.headers, "PAYMENT-REQUIRED") == Some(challenge))
  {
    NamesApart();
    var headers := ResultResponse(q, body, settlement).headers;
    forall k | 0 <= k < |headers| && forall j :: k < j < |headers| ==> headers[j].name != headers[k].name
      ensures HeaderValue(headers, headers[k].name) == Some(headers[k].value)
    {
      ValueOfLast(headers, k);
    }
    if settlement.Receipt? {
      assert headers[0].name == "X-Lucent-Access" && headers[1].name == "PAYMENT-RESPONSE";
      assert headers[2].name == "Content-Type" && headers[3].name == "Lucent-Internal-Payment-Proof";
    } else {
      assert headers[0].name == "Content-Type" && headers[1].name == "Lucent-Internal-Payment-Proof";
      assert settlement.status == 402 ==> headers[2].name == "PAYMENT-REQUIRED";
    }
  }

  lemma {:induction false} LineBreaks(s: string)
    ensures 13 in Encode(s) <==> '\r' in s
    ensures 10 in Encode(s) <==> '\n' in s
  {
    if s != "" {
      LineBreaks(s[1..]);
      assert s == [s[0]] + s[1..];
    }
  }

  /** A response is stored only if, encoded, no header line is longer than 8192 bytes or contains
      a line break, so that no header can pass for two. */
  lemma CacheableIff(r: Response)
    ensures Cacheable(r) <==>
              && 100 <= r.status <= 599
              && forall h :: h in r.headers ==>
                   |Encode(h.name)| + |Encode(h.value)| <= 8192 && 13 !in Encode(h.value) && 10 !in Encode(h.value)
  {
    hide Utf8Length, Encode;
    forall h | h in r.headers
      ensures Utf8Length(h.name) + Utf8Length(h.value) == |Encode(h.name)| + |Encode(h.value)|
      ensures (13 in Encode(h.value) <==> '\r' in h.value) && (10 in Encode(h.value) <==> '\n' in h.value)
    {
      Utf8LengthIsEncoded(h.name);
      Utf8LengthIsEncoded(h.value);
      LineBreaks(h.value);
    }
  }

  // ------------------------------------------------------------------ when a replay is shown

  /** Handler `i` recorded `r`, less than its time to live ago, for the proof, key and request
      fingerprint that request `j` presents. */
  ghost predicate RecordedFor(p: Params, s: State, i: nat, j: nat, r: Response)
    requires i < |s.handlers| == |p.requests| && j < |p.requests|
  {
    var q, q', h := p.requests[j], p.requests[i], s.handlers[i];
    && q.proof == q'.proof && q.key == q'.key && q.fingerprint == q'.fingerprint
    && h.recordedAt.Some? && h.rendered == Some(r)
    && s.clock < h.recordedAt.value + PAYMENT_CLAIM_TTL_SECONDS
  }

  /** Exactly when a replay is shown: an admission ends with `r` replayed if and only if some
      request recorded `r`, less than 900 s ago, for the same proof, key and fingerprint. */
  lemma ReplayedIff(p: Params, run: Run, j: nat, token: string, r: Response)
    requires WellFormed(p) && Enabled(At(p, run), Admission(j, token))
    ensures |At(p, run).handlers| == |p.requests|
    ensures var s := At(p, run);
            Next(p, s, Admission(j, token)).handlers[j].phase == Ended(Replayed(r, s.clock)) <==>
              exists i :: 0 <= i < |s.handlers| && RecordedFor(p, s, i, j, r)
  {
    hide At;
    Reachable(p, run);
    var s := At(p, run);
    hide ValidTable, Handlers, Results, Claims, Replays;
    if Next(p, s, Admission(j, token)).handlers[j].phase == Ended(Replayed(r, s.clock)) {
      var i := ReplayHasRecorder(p, run, j, token, r);
    }
    if i :| 0 <= i < |s.handlers| && RecordedFor(p, s, i, j, r) {
      RecordedIsReplayed(p, s, i, j, token, r);
    }
  }

  lemma ReplayHasRecorder(p: Params, run: Run, j: nat, token: string, r: Response) returns (i: nat)
    requires WellFormed(p) && Enabled(At(p, run), Admission(j, token)) && |At(p, run).handlers| == |p.requests|
    requires Next(p, At(p, run), Admission(j, token)).handlers[j].phase == Ended(Replayed(r, At(p, run).clock))
    ensures i < |At(p, run).handlers| && RecordedFor(p, At(p, run), i, j, r)
  {
    var s, after := At(p, run), Then(run, Admission(j, token));
    var s' := At(p, after);
    Unrolled(p, run, Admission(j, token));
    AdmissionFrame(p, s, j, token);
    hide At, Next, Enabled;
    Reachable(p, after);
    i := Recorder(p, s', j);
  }

  lemma Unrolled(p: Params, run: Run, step: Step)
    ensures At(p, Then(run, step)) == Next(p, At(p, run), step)
  {
  }

  lemma AdmissionFrame(p: Params, s: State, j: nat, token: string)
    requires |s.handlers| == |p.requests| && Enabled(s, Admission(j, token))
    ensures var s' := Next(p, s, Admission(j, token));
            && |s'.handlers| == |s.handlers| && s'.clock == s.clock
            && forall i :: 0 <= i < |s.handlers| && i != j ==> s'.handlers[i] == s.handlers[i]
  {
    hide Reserve, OnAdmission;
  }

  lemma Recorder(p: Params, s: State, j: nat) returns (i: nat)
    requires Inv(p, s) && j < |s.handlers| && s.handlers[j].phase.Ended? && s.handlers[j].phase.ending.Replayed?
    ensures i < |s.handlers| && i != j && ReplayFrom(p, s, j, i)
  {
    hide ValidTable, Results, Claims, AcceptableInput, CachedProof;
    assert ReplayOk(p, s, j) && HandlerOk(p, s, j);
    i :| 0 <= i < |s.handlers| && ReplayFrom(p, s, j, i);
  }

  lemma ReserveReplays(c: Config, t: Table, now: real, k: Key, f: string, token: string, r: Response)
    requires Ordered(t) && AcceptableInput(k, f) && k in t.at && now < t.at[k].expiresAt
    requires t.at[k].state.Complete? && t.at[k].fingerprint == f && t.at[k].response == Some(r)
    ensures Reserve(c, t, now, k, f, token).1 == Replay(r)
  {
    hide Keep, AcceptableInput;
  }

  /** Nothing recorded is forgotten or withheld early. */
  lemma RecordedIsReplayed(p: Params, s: State, i: nat, j: nat, token: string, r: Response)
    requires WellFormed(p) && Inv(p, s) && Enabled(s, Admission(j, token))
    requires i < |s.handlers| && RecordedFor(p, s, i, j, r)
    ensures Next(p, s, Admission(j, token)).handlers[j].phase == Ended(Replayed(r, s.clock))
  {
    var q := p.requests[j];
    var k := ResultKey(q);
    RecordStands(p, s, i, r);
    TableOrdered(RESULTS, s.results);
    hide ValidTable, Ordered, AcceptableInput, Handlers, Results, Claims, Replays, Reserve, CachedProof, Next, Enabled;
    ReserveReplays(RESULTS, s.results, s.clock, k, q.fingerprint, token, r);
    AnsweredByReplay(p, s, j, token, r);
  }

  lemma AnsweredByReplay(p: Params, s: State, j: nat, token: string, r: Response)
    requires |s.handlers| == |p.requests| && Enabled(s, Admission(j, token))
    requires var q := p.requests[j];
             && Reserve(RESULTS, s.results, s.clock, ResultKey(q), q.fingerprint, token).1 == Replay(r)
             && CachedProof(r.headers) == Some(q.proofFingerprint)
    ensures Next(p, s, Admission(j, token)).handlers[j].phase == Ended(Replayed(r, s.clock))
  {
    hide Reserve, CachedProof;
  }

  lemma RecordStands(p: Params, s: State, i: nat, r: Response)
    requires Inv(p, s) && i < |s.handlers| && s.handlers[i].recordedAt.Some? && s.handlers[i].rendered == Some(r)
    requires s.clock < s.handlers[i].recordedAt.value + PAYMENT_CLAIM_TTL_SECONDS
    ensures var q := p.requests[i];
            var k, t := ResultKey(q), s.results.at;
            && AcceptableInput(k, q.fingerprint) && k in t && s.clock < t[k].expiresAt && t[k].state.Complete?
            && t[k].fingerprint == q.fingerprint && t[k].response == Some(r)
            && CachedProof(r.headers) == Some(q.proofFingerprint)
  {
    hide ValidTable, AcceptableInput, CachedProof, Claims, Replays;
    assert HandlerOk(p, s, i) && ResultKept(p, s, i) && ResultOk(p, s, ResultKey(p.requests[i]));
  }

  // ------------------------------------------------------------------ two results that are lost

  const RECEIPT := Receipt("r")

  /** A short header without line breaks. */
  predicate Plain(h: Header) {
    1 <= |h.name| + |h.value| <= 60 && '\r' !in h.value && '\n' !in h.value
  }

  lemma ReceiptPlain(q: Request, body: seq<Byte>)
    requires q.proofFingerprint == "h0"
    ensures var hs := ResultResponse(q, body, RECEIPT).headers;
            |hs| == 4 && Plain(hs[0]) && Plain(hs[1]) && Plain(hs[2]) && Plain(hs[3])
    ensures ResultResponse(q, body, RECEIPT).status == 200 && ResultResponse(q, body, RECEIPT).body == body
  {
  }

  lemma PlainBytes(h: Header)
    requires Plain(h)
    ensures 1 <= Utf8Length(h.name) + Utf8Length(h.value) <= 240
  {
    hide Utf8Length;
  }

  lemma FourHeaders(hs: seq<Header>)
    requires |hs| == 4 && Plain(hs[0]) && Plain(hs[1]) && Plain(hs[2]) && Plain(hs[3])
    ensures 0 < HeaderBytes(hs) <= 960
    ensures forall h :: h in hs ==> Plain(h)
  {
    hide Utf8Length, Plain;
    PlainBytes(hs[0]);
    PlainBytes(hs[1]);
    PlainBytes(hs[2]);
    PlainBytes(hs[3]);
    assert hs[3..][1..] == [];
    assert HeaderBytes(hs[3..]) == Utf8Length(hs[3].name) + Utf8Length(hs[3].value) + HeaderBytes(hs[3..][1..]);
    assert hs[2..][1..] == hs[3..];
    assert HeaderBytes(hs[2..]) == Utf8Length(hs[2].name) + Utf8Length(hs[2].value) + HeaderBytes(hs[3..]);
    assert hs[1..][1..] == hs[2..];
  }

  lemma ReceiptCacheable(q: Request, body: seq<Byte>)
    requires q.proofFingerprint == "h0"
    ensures Cacheable(ResultResponse(q, body, RECEIPT))
    ensures 0 < HeaderBytes(ResultResponse(q, body, RECEIPT).headers) <= 960
    ensures ResultResponse(q, body, RECEIPT).body == body
  {
    hide ResultResponse, Utf8Length, HeaderBytes, Plain;
    ReceiptPlain(q, body);
    var r := ResultResponse(q, body, RECEIPT);
    FourHeaders(r.headers);
    forall h | h in r.headers
      ensures Utf8Length(h.name) + Utf8Length(h.value) <= MAX_HEADER_LINE_BYTES && '\r' !in h.value && '\n' !in h.value
    {
      PlainFits(h);
    }
  }

  lemma PlainFits(h: Header)
    requires Plain(h)
    ensures Utf8Length(h.name) + Utf8Length(h.value) <= MAX_HEADER_LINE_BYTES && '\r' !in h.value && '\n' !in h.value
  {
    PlainBytes(h);
  }

  /** The settlement is over, was submitted and could be rendered, but was not recorded. */
  ghost predicate Lost(h: Handler) {
    h.phase == Ended(Finished) && h.submittedAt.Some? && h.rendered.Some? && h.recordedAt.None?
  }

  /** What recording a plain receipt of the first of two requests leaves. */
  lemma AfterReceipt(p: Params, settling: Run)
    requires p == Two(300) && |At(p, settling).handlers| == 2 && At(p, settling).handlers[0].phase.Settling?
    ensures At(p, settling).handlers[0].reservation.Some?
    ensures |At(p, Then(Then(settling, SettleAnswer(0, RECEIPT)), RecordResult(0))).handlers| == 2
    ensures var s, s' := At(p, settling), At(p, Then(Then(settling, SettleAnswer(0, RECEIPT)), RecordResult(0)));
            var h, h' := s.handlers[0], s'.handlers[0];
            var r := ResultResponse(p.requests[0], h.body, RECEIPT);
            && s'.clock == s.clock && h'.phase == Ended(Finished) && h'.rendered == Some(r) && |r.body| == |h.body| && 0 < Size(r) - |h.body| <= 960
            && h'.body == h.body && h'.submittedAt == h.submittedAt && h'.reservation == h.reservation
            && (h'.recordedAt.Some? <==> s.clock < h.reservation.value.expiresAt && Size(r) <= MAX_CACHED_RESULT_BYTES)
  {
    var s, mid := At(p, settling), Then(settling, SettleAnswer(0, RECEIPT));
    assert At(p, mid) == Next(p, s, SettleAnswer(0, RECEIPT));
    assert At(p, Then(mid, RecordResult(0))) == Next(p, At(p, mid), RecordResult(0));
    hide At, Utf8Length, HeaderBytes, Cacheable, ResultResponse, Commit;
    ReceiptCacheable(p.requests[0], s.handlers[0].body);
    Answered(p, s, 0, RECEIPT);
    StoredIff(p, settling, 0, RECEIPT);
    Recorded(p, At(p, mid), 0);
  }

  lemma Recorded(p: Params, s: State, i: nat)
    requires |s.handlers| == |p.requests| && i < |s.handlers| && s.handlers[i].phase.Settled?
    ensures var s' := Next(p, s, RecordResult(i));
            && s'.clock == s.clock && |s'.handlers| == |s.handlers|
            && s'.handlers[i].body == s.handlers[i].body && s'.handlers[i].submittedAt == s.handlers[i].submittedAt
            && s'.handlers[i].reservation == s.handlers[i].reservation
  {
    hide Commit;
  }

  /** A body of exactly the limit passes the body check; with its headers it is too large for
      the store, so the paid result is not recorded, however quick the settlement. */
  lemma FullBodyIsLost() returns (p: Params, run: Run)
    ensures var s := At(p, run);
            && |s.handlers| == 2 && Lost(s.handlers[0]) && |s.handlers[0].body| == MAX_CACHED_RESULT_BYTES
            && s.handlers[0].reservation.Some? && s.clock < s.handlers[0].reservation.value.expiresAt
  {
    var body: seq<Byte> := seq(MAX_CACHED_RESULT_BYTES, _ => 0);
    p := Two(300);
    var settling := Opening(body);
    run := Then(Then(settling, SettleAnswer(0, RECEIPT)), RecordResult(0));
    OpeningRuns(300, body);
    AfterReceipt(p, settling);
  }

  /** A settlement answered after its 120 s reservation is not recorded, however small. */
  lemma LateAnswerIsLost() returns (p: Params, run: Run)
    ensures var s := At(p, run);
            && |s.handlers| == 2 && Lost(s.handlers[0])
            && Size(s.handlers[0].rendered.value) <= MAX_CACHED_RESULT_BYTES
            && s.handlers[0].submittedAt == Some(0.0) && s.clock == PROTECTED_RESERVATION_TTL_SECONDS
  {
    p := Two(300);
    var settling := Then(Opening([]), Tick(PROTECTED_RESERVATION_TTL_SECONDS));
    run := Then(Then(settling, SettleAnswer(0, RECEIPT)), RecordResult(0));
    OpeningRuns(300, []);
    Ticked(p, Opening([]), PROTECTED_RESERVATION_TTL_SECONDS);
    AfterReceipt(p, settling);
  }

  lemma Ticked(p: Params, run: Run, seconds: real)
    requires seconds >= 0.0 && |At(p, run).handlers| == |p.requests|
    ensures At(p, Then(run, Tick(seconds))) == At(p, run).(clock := At(p, run).clock + seconds)
  {
  }
}

# Lucent: verified models of its state machines and parsers

Lucent answers one question about an Ethereum transaction, "is this screen safe to present to
a signer?", and can charge for the answer. This project models the parts of it where a mistake
would be silent, and proves what they promise:

- **The paid request** (`PaidProtocol`, `PaidInvariant`, `PaidSafety`, `PaidReplays`,
  `PaidProgress`, `PaidHandler`). Any number of requests run at once over two ledgers and a clock: one ledger keyed by Idempotency-Key, one
  by signed-transfer fingerprint. Handlers interleave, are cancelled at awaits without running
  their cleanup, and their reservations expire. `PaidProtocol` is the step relation,
  `PaidInvariant` the invariant every step keeps, `PaidSafety` the theorems over every run, and
  `PaidReplays` says exactly when a settled result is recorded and when it is replayed.
  `PaidProgress` says which answers a submission needs, and which are enough for one.
  `PaidHandler` is the service with its two store objects and the handler as an imperative
  program on them, interrupted at its awaits, and proved to take exactly steps of the protocol.
- **The ledger** (`Basics`, `Orders`, `Ledger`, `LedgerLaws`, `IdempotencyStores`, `LedgerRuns`,
  `LedgerAnswers`). An ordered
  dictionary with deadlines, eviction in LRU order, ownership tokens and two byte counters.
  `Ledger` says what each operation does to a table; the class `IdempotencyStore` does it in place
  and is proved against it; `LedgerRuns` proves laws of whole histories, stated by looking only at
  the history, and `LedgerAnswers` says what each operation answers and leaves, in terms of the
  unexpired entries and of encoded bytes.
- **The token buckets** (`TokenBucket`), with bounds from both sides over whole runs and any clock.
- **The bytecode analyser** (`Metadata`, `MetadataLayout`, `Bytecode`, `Disassembly`, `ProxyChain`,
  `ProxyReplies`). The reader of Solidity's CBOR
  metadata against a printer of it (sections 3.1 and 4.2.1 of RFC 8949), the trailer stripper and
  opcode sweep against a definition by instruction boundaries and against an assembler, the bounded
  EIP-1967 walk against a definition of what a resolution is and against the raw replies, and the
  call budgets of its clients.
- **The source cache** (`SourceCache`, `VerifiedSourceCaches`, `SingleFlight`, `SourceAnswers`). Tables and counter
  changed in place under a lock, and any number of threads that look, wait, resolve and report.
- **Signatures and display paths** (`Abi`, `Canonical`, `CanonicalLaws`, `AbiPaths`,
  `Presentation`, `Keys`, `Screens`). The parser of named signatures against the printer of canonical ones, leaf
  enumeration against path lookup, and exactly which screens earn a `safe_to_present` verdict.

## How things are modelled

Time, tokens of quota and costs are exact reals. The wall clock and the monotonic clock are one
clock. A SHA-256 or keccak value is represented by what was hashed, which is to say that hashes do
not collide (`PaidProtocol.WellFormed` says so for proof and transfer fingerprints). A freshly
drawn ownership token is an argument, and is different from all earlier ones where that matters
(`LedgerRuns.FreshTokens`, `PaidProtocol.Enabled`). Exceptions are results. What the facilitator,
the RPC endpoint, the resolver and the local request checks answer is arbitrary. Protocol steps are
single ledger operations, so the runs include every interleaving at awaits and more; a waiting
thread of the source cache may also wake without having been notified, and a resolver may die.
Text is a sequence of characters and its encoded length is counted as UTF-8.

## Where the code keeps less than it seems to promise

- One settlement per authorization. Two submissions for one authorization always have claim commits
  at least 900 s apart (`SettlementsApart`). Whether there can be a second one at all depends on
  the time between a request's window check and its claim, which the code does not bound while it
  awaits the facilitator. `SettledOnceIff` gives the exact bound, 900 s less the authorization
  window (600 s for the largest window); `SlowVerifySettlesTwice` is a run for every bound above it.
- Path lookup steps from `tuple[]` straight to a component, so it finds more than is enumerated
  (`ShortcutExists`); `EnumeratedIff` says exactly which lookups are enumerated leaves.
- A settled result is not always recorded for replay. The response body is checked against the limit
  that the store applies to body and headers together, and a reservation may expire while the
  settlement is awaited. `StoredIff` says exactly when a result is recorded, from what is known when
  the facilitator answers; `FullBodyIsLost` and `LateAnswerIsLost` are runs in which each cause
  alone loses it. What was recorded is replayed exactly to those it should be (`ReplayedIff`).
- The remaining quota advertised with a refusal leaves out the comparison slack that the next call
  is granted, so it can be one too low; `RemainingAfterRefusal` says exactly when.
- A waiter of the source cache is woken unless the resolver it waits for is ended by an exception
  outside `Exception`, which no handler of the cache sees: then the key stays in flight. `LedIff` and
  `NoLostWakeup` say that this is the only exception, `WaiterGetsStuck` is such a run, and
  `StuckForever` shows that nothing helps the waiter afterwards.

## Model

| member | source | states |
|---|---|---|
| PaidInvariant.StepKeeps | lucent/api.py:894-1028 | Every step of every handler, and the passing of time, keeps the invariant: tables well formed, each entry tied to the handler that drew its token, times ordered, committed claims, unexpired result reservations and recorded results retained, claims on one authorization apart, replays traceable to a recorded settlement. |
| PaidInvariant.Reachable | lucent/api.py:894-1028 | The invariant holds after every run, whatever the requests and the environment's answers. |
| PaidSafety.WriteAhead | lucent/api.py:969-989 | In every reachable state each submitted settlement was preceded by its claim commit, and that claim is in the ledger, complete and under its own token, until 900 s have passed. |
| PaidSafety.ClaimBlocksReserve | lucent/api.py:935-951 | While a committed claim is younger than 900 s, no reserve on that authorization is granted, to any request. |
| PaidSafety.SubmitsOnce | lucent/api.py:970-978 | A handler that submitted can never submit again, and its submission stays on record, over any continuation of the run. |
| PaidProgress.SubmissionNeedsEveryAnswer | lucent/api.py:927-978 | In every run, a request was submitted only if its local checks passed at a reading within its authorization window (valid-after included), the facilitator said that its proof is valid, an answer within 2 MiB was bound and its claim was committed; read off the steps of the run. |
| PaidProgress.FreeRequestIsSubmitted | lucent/api.py:900-978 | A request in its window whose key and authorization are free and for which both ledgers have room is submitted when every answer is good, however long verification takes, if binding takes less than the claim's 120 s. |
| PaidProgress.CancelLeavesEverything | lucent/api.py:935-978 | A request can be cancelled exactly at its three awaits, and both ledgers stay as they are. |
| PaidSafety.NothingLeftBehind | lucent/api.py:1015-1028 | A request that ended uncancelled before submitting has no entry left in either ledger. |
| PaidSafety.TouchesOnlyOwn | lucent/api.py:894-1028 | No step of a handler changes, adds or removes an entry of another handler, except that expired ones may go. |
| PaidSafety.FailureLeavesNoTrace | lucent/api.py:1015-1028 | A request that goes from arrival to an uncancelled end without submitting leaves in both ledgers exactly the entries that were there before, apart from those that expired meanwhile: as if it had never been admitted. |
| PaidSafety.PaidReplaySound | lucent/api.py:650-676 | A replay is shown only to a caller presenting the exact proof whose settlement was submitted earlier under the same key and request fingerprint, and is the response recorded for it less than 900 s ago; the replayed request itself neither verified nor submitted. |
| PaidReplays.RecordedIff | lucent/api.py:999-1013 | In every reachable settled state, recording succeeds if and only if the response could be rendered, the reservation has not expired, and body and headers together are within 2 MiB; the request finishes either way. |
| PaidReplays.StoredIff | lucent/api.py:977-1013 | Whatever the facilitator answers, the response it renders to is recorded if and only if it is cacheable, the 120 s reservation is still running, and body plus header bytes are within 2 MiB; the body of a success is always within it, so only its headers can exceed it. |
| PaidReplays.ReplayedIff | lucent/api.py:900-911 | An admission ends with a response replayed if and only if some request recorded exactly that response, less than 900 s ago, for the same proof, key and request fingerprint. |
| PaidReplays.RecordedIsReplayed | lucent/api.py:900-911 | What was recorded is replayed to every admission with the same proof, key and fingerprint until 900 s have passed: it is neither forgotten nor withheld early. |
| PaidReplays.RenderedSays | lucent/api.py:697-730 | What is recorded says: 200, the bound body and its receipt, or the failure's status and body with the challenge exactly on 402; and always the proof. |
| PaidReplays.CacheableIff | lucent/access.py:479-508 | A rendered response is stored only if its status is 100 to 599 and no encoded header line is over 8192 bytes or contains a line break. |
| PaidReplays.FullBodyIsLost | lucent/api.py:966-967 | A run in which a body of exactly 2 MiB passes the body check, is settled at once, and is not recorded because its headers make it too large. |
| PaidReplays.LateAnswerIsLost | lucent/api.py:977-1013 | A run in which a small settled response is not recorded because the facilitator answers when the 120 s reservation has expired. |
| PaidSafety.SettlementsApart | lucent/api.py:935-978 | Two submissions for one authorization have claim commits at least 900 s apart; the later claim was even reserved that long after the earlier commit. |
| PaidSafety.TwiceNeedsDelay | lucent/payments.py:689-699 | Of two submissions for one authorization, one reserved its claim more than 900 s less the window after its own window check. |
| PaidSafety.SettledOnceIff | lucent/hosted.py:377-384 | No authorization is ever submitted twice over runs whose claims are reserved within a given delay of the window check, if and only if that delay is at most 900 s less the authorization window. |
| PaidSafety.SlowVerifySettlesTwice | lucent/api.py:935-978 | For any larger delay, a concrete run within it that submits one authorization twice. |
| PaidHandler.Service.TransactionPreflight | lucent/api.py:894-1028 | The imperative paid handler, on the two store objects, always ends, whatever others do during its three awaits and wherever it is cancelled; it submits only if the local checks, the verification and the binding all succeeded with a body within 2 MiB and it was not cancelled before; from start to end the service goes through exactly a sequence of protocol steps, each another's or its own with the environment's answer, so a service in a reachable state stays in one and every law over runs holds of it. |
| PaidHandler.Service.Attempt | lucent/api.py:922-979 | The part between admission and cleanup takes protocol steps; it leaves something to unwind only if no settlement was attempted, and it submits only if every answer was good and it was not cancelled before. |
| PaidHandler.Service.BindAndSettle | lucent/api.py:956-989 | From source binding to the end, in protocol steps; a settlement is attempted only with a committed claim, and then nothing is left to unwind; it is submitted only with an answer bound within 2 MiB. |
| PaidHandler.Service.Settle | lucent/api.py:975-989 | Submission is immediate and requires the committed claim; unless cancelled while waiting, the request finishes, and either way the claim's commit stays on record. |
| PaidHandler.Service.Conclude | lucent/api.py:977-1014 | After the facilitator's answer the request finishes, recording success or terminal failure if it can be stored, with the claim store untouched. |
| PaidHandler.Service.Wait | lucent/api.py:935-977 | While a handler awaits, steps of others leave its record and its unused token as they were. |
| PaidHandler.Service.Perform | lucent/api.py:894-1028 | Any step of any handler, done on the service's own objects, gives exactly the protocol's next state. |
| PaidHandler.Service.ReserveResult | lucent/api.py:900-917 | Reserving on the result store and deciding by its answer is the protocol's admission step. |
| PaidHandler.Service.ReserveAuthorization | lucent/api.py:940-954 | Reserving on the claim store and deciding by its answer is the protocol's claim step. |
| PaidHandler.Service.CommitPaymentClaim | lucent/api.py:733-751 | Committing the empty 204 tombstone is the protocol's claim commit; a refusal leaves the request to be unwound. |
| PaidHandler.Service.RecordSettlement | lucent/api.py:694-730 | Recording the result is the protocol's record step; a refused commit is logged and changes nothing else. |
| PaidHandler.Service.Unwind | lucent/api.py:1015-1027 | The exception cleanup aborts the result reservation, then the claim reservation if there is one, in protocol steps. |
| PaidHandler.Service.ReleaseResult | lucent/api.py:1016-1021 | Aborting the result reservation is the protocol's first unwinding step. |
| PaidHandler.Service.ReleaseClaim | lucent/api.py:1022-1027 | Aborting the claim reservation is the protocol's second unwinding step. |
| PaidHandler.Service.constructor | lucent/hosted.py:366-384 | A new service has two empty stores with the deployed limits, which is the protocol's initial state. |
| PaidHandler.PlayStaysReached | lucent/api.py:894-1028 | Playing steps from a state of some run gives a state of some run. |
| PaidInvariant.ReserveHas | lucent/access.py:617-682 | A reserve without eviction loses only expired entries; a grant replaces at most an expired entry; a replay comes from an unexpired completed entry with that fingerprint. |
| PaidInvariant.CommitHas | lucent/access.py:684-721 | A commit without eviction succeeds only for the unexpired owned entry, completes exactly that entry, and loses only expired ones. |
| PaidInvariant.AbortHas | lucent/access.py:723-735 | After an abort the reservation owns nothing, and nothing else is lost but expired entries. |
| LedgerRuns.RunAccounting | lucent/access.py:651-721 | Over every sequence of operations the table stays in order, the entry count, the cached bytes and (without eviction) cached plus reserved bytes stay within their limits, no commit fails for capacity, and no reserve meets a completed entry without a response. |
| LedgerRuns.StepEntries | lucent/access.py:617-735 | An entry after an operation was there before and unexpired, was just reserved, or was just committed by its owner. |
| LedgerRuns.StepRetains | lucent/access.py:617-735 | Without eviction an unexpired entry outlives every operation but its own commit or abort; with eviction an unexpired reservation does. |
| LedgerRuns.ReplayIsLastCommit | lucent/access.py:631-649 | A replay is the response of the last successful commit for that tenant, key and fingerprint, made less than the time to live ago, whatever the clock did. |
| LedgerRuns.ReplayIffUnexpiredCommit | lucent/access.py:617-721 | With eviction off and a monotone clock, a reserve replays a response if and only if it is that of the last commit under the key, with this fingerprint, and is unexpired: nothing completed is forgotten early. |
| LedgerRuns.CommitIsRetained | lucent/access.py:684-721 | With eviction off, an unexpired commit is still in the table after any number of further operations. |
| LedgerRuns.NoSecondOwner | lucent/access.py:633-642 | From a grant until its commit, abort or expiry, every other reserve on the key is answered in-progress with the exact remaining time, or conflict. |
| LedgerRuns.BecomesStale | lucent/access.py:698-735 | A reservation owns nothing once it was committed, aborted, passed its deadline, or was superseded. |
| LedgerRuns.StaleIsPowerless | lucent/access.py:698-758 | A stale reservation stays stale over every continuation: its commit and abort are refused and change nothing beyond expiries, so it never affects a successor. |
| LedgerRuns.OrderIsRecency | lucent/access.py:645-721 | In every reachable state the completed entries stand in the order of their last commit or replay, as read off the history. |
| LedgerRuns.CountEvictionIsLru | lucent/access.py:765-773 | A grant under count pressure drops exactly the completed entry least recently committed or replayed, and no unexpired entry otherwise. |
| LedgerRuns.ByteEvictionIsLru | lucent/access.py:775-782 | A commit under byte pressure drops exactly the shortest sufficient prefix of the LRU order; every reservation stays. |
| LedgerAnswers.ReserveAnswers | lucent/access.py:617-682 | What a reserve answers in every case, in terms of encoded lengths, the unexpired entry under the key, and room: invalid input, conflict, in progress with the exact remaining time, that entry's response, capacity with the time to the first expiry, or a grant. |
| LedgerAnswers.AdmissionIff | lucent/access.py:651-682 | Over every history, a new acceptable key is refused if and only if every place is taken by an unexpired reservation (with eviction), or the places or the bytes for a largest response are taken (without); otherwise it is granted. |
| LedgerAnswers.ReserveLeaves | lucent/access.py:617-682 | A reserve leaves exactly the unexpired entries, and after a grant the new reservation, less one completed entry at most and only when full. |
| LedgerAnswers.CommitAnswers | lucent/access.py:684-721 | What a commit answers and leaves in every case: too large changes nothing; only the unexpired owner's entry becomes the response for one time to live; only completed entries are given up, and none without eviction. |
| LedgerAnswers.AbortAnswers | lucent/access.py:723-735 | An abort removes exactly the unexpired owner's reservation and says whether it did. |
| LedgerAnswers.LengthAnswers | lucent/access.py:737-741 | The reported length is the number of unexpired entries, over every history. |
| LedgerAnswers.AcceptableIff | lucent/access.py:257-266 | A tenant, key and fingerprint are accepted exactly when their UTF-8 encodings have 1 to 128, 256 and 256 bytes. |
| LedgerAnswers.CharRoundTrip | lucent/access.py:257-266 | The encoding counted is that of RFC 3629, section 3: it announces its length and decodes to its character. |
| LedgerAnswers.SizeIsBytes | lucent/access.py:524-530 | A response counts with its body and every encoded byte of its header names and values. |
| LedgerLaws.EvictsShortestPrefix | lucent/access.py:775-782 | The byte loop ends with room for the response, and no smaller number of evictions would do. |
| LedgerLaws.DropOldestIsPrefix | lucent/access.py:784-802 | Giving up the oldest completed entry n times removes the first n of the recency order. |
| LedgerLaws.DropOldestSpares | lucent/access.py:784-792 | Eviction never removes or changes a reservation. |
| LedgerLaws.NoVictimMeansRoom | lucent/access.py:775-782 | The branch of the byte loop without a victim is unreachable. |
| LedgerLaws.ReserveKeeps | lucent/access.py:617-682 | A reserve keeps the table invariant; the defensive branch for a completed entry without a response is unreachable. |
| LedgerLaws.CommitKeeps | lucent/access.py:684-721 | A commit keeps the table invariant and is never refused for capacity: the room was set aside at admission or can be made now. |
| LedgerLaws.AbortKeeps | lucent/access.py:723-735 | An abort keeps the table invariant. |
| Ledger.DropOneSums | lucent/access.py:794-802 | Removing one entry takes exactly its bytes out of both sums. |
| Ledger.Soonest | lucent/access.py:804-809 | The advertised wait is the smallest remaining time of any entry, or the reservation time to live when there is none. |
| IdempotencyStores.IdempotencyStore.constructor | lucent/access.py:583-615 | A new store is empty and valid. |
| IdempotencyStores.IdempotencyStore.Remove | lucent/access.py:794-802 | Removes one entry in place; both counters stay equal to the sums, and neither underflow check can fire. |
| IdempotencyStores.IdempotencyStore.ExpiredKeys | lucent/access.py:760-761 | Collects exactly the keys whose deadline has passed, in order. |
| IdempotencyStores.IdempotencyStore.Expire | lucent/access.py:760-763 | The removal loop leaves exactly the unexpired entries, in order, with exact counters. |
| IdempotencyStores.IdempotencyStore.OldestCompletedKey | lucent/access.py:784-792 | Finds the first completed key in order, or that there is none. |
| IdempotencyStores.IdempotencyStore.EnsureRoom | lucent/access.py:765-773 | Makes room for one entry by giving up the oldest completed one, or reports that none may be given up and changes nothing. |
| IdempotencyStores.IdempotencyStore.EnsureResponseRoom | lucent/access.py:775-782 | The eviction loop terminates, always succeeds, and leaves the table without the shortest sufficient prefix of completed entries. |
| IdempotencyStores.IdempotencyStore.Place | lucent/access.py:665-721 | Writing an entry and moving it to the end keeps the counters exact. |
| IdempotencyStores.IdempotencyStore.Reserve | lucent/access.py:617-682 | Answer and new contents are those of the table operation, with exact counters; the corrupt-entry branch is never taken. |
| IdempotencyStores.IdempotencyStore.Commit | lucent/access.py:684-721 | Answer and new contents are those of the table operation, with exact counters; the capacity branch is never taken. |
| IdempotencyStores.IdempotencyStore.Abort | lucent/access.py:723-735 | Answer and new contents are those of the table operation, with exact counters. |
| TokenBucket.TokenBucketLimiter.constructor | lucent/access.py:406-420 | A limiter starts with no bucket for any tenant. |
| TokenBucket.TokenBucketLimiter.Consume | lucent/access.py:422-463 | Charges only that tenant's bucket; an unknown tenant or an inadmissible cost changes nothing. |
| TokenBucket.Conservation | lucent/access.py:430-456 | Over every run, with any clock: tokens left plus everything granted are at most the capacity plus the refill over the clock's progress, plus 1e-12 for each accepted call; the refill mark is the largest reading. |
| TokenBucket.GrantedBound | lucent/access.py:430-456 | Total cost granted in n accepted calls is at most capacity + rate × (largest − first reading) + n × 1e-12, even if the clock goes back. |
| TokenBucket.RetryAfterIsExact | lucent/access.py:444-450 | A refused call, repeated with nothing else consumed, is accepted exactly from last refill + retry-after on, less the time in which 1e-12 tokens flow in. |
| TokenBucket.NothingIsLost | lucent/access.py:430-456 | Over every run, with any clock, there is a call since which the tokens left are at least the capacity plus the refill less what was granted: no token is lost or charged twice. |
| TokenBucket.NothingIsGained | lucent/access.py:430-456 | Since no call of a run was more granted than capacity and refill allow, up to 1e-12 for each accepted call. |
| TokenBucket.RefusalIsEarned | lucent/access.py:444-450 | A call is refused only if, since some earlier call, the grants and its cost together exceed the capacity plus the refill by more than 1e-12. |
| TokenBucket.AcceptedLeaves | lucent/access.py:427-452 | An accepted call leaves exactly the refilled tokens less its cost, a refused one the refilled tokens; a first call is always accepted. |
| TokenBucket.RemainingIsExact | lucent/access.py:452-463 | After an accepted call, a whole cost is accepted next, before the clock moves on, if and only if it is at most the advertised remaining quota. |
| TokenBucket.RemainingAfterRefusal | lucent/access.py:444-450 | The quota advertised with a refusal is rounded without the comparison slack: any whole cost up to it is accepted next, and one more exactly if the tokens are within 1e-12 of it. |
| TokenBucket.ResetAfterIsExact | lucent/access.py:453-463 | With nothing else consumed, the whole capacity is available exactly from the advertised reset time on, less the time in which 1e-12 tokens flow in. |
| Metadata.LengthInvertsHead | lucent/verified_source.py:590-609 | The length reader accepts exactly the shortest-form heads of section 4.2.1 of RFC 8949: it inverts the head printer in both directions. |
| Metadata.BlobFound | lucent/verified_source.py:612-622 | Every string the blob reader returns stands there in printed form, ending where it says. |
| Metadata.BlobRead | lucent/verified_source.py:612-622 | Every printed string is read back as itself. |
| Metadata.ItemFound | lucent/verified_source.py:640-676 | Every key and value the reader accepts is a well-formed item in printed form. |
| Metadata.ItemRead | lucent/verified_source.py:640-676 | Every printed item is read back as itself, release and prerelease versions kept apart. |
| Metadata.PrintInjective | lucent/verified_source.py:625-678 | A payload is the printing of at most one metadata map. |
| Metadata.IsSolidityMetadata | lucent/verified_source.py:625-678 | Accepts exactly the printings of maps of one to five distinct known keys, in any order, one of them `solc` and at most one a source hash. |
| Metadata.MetadataSize | lucent/verified_source.py:625-678 | Accepted metadata is 1 to 159 bytes long. |
| MetadataLayout.AcceptedIff | lucent/verified_source.py:625-678 | Byte by byte: a payload is accepted if and only if it is 0xA1 to 0xA3 and that many entries in any order, at most one source hash (`ipfs`, `bzzr0` or `bzzr1` with its literal value head and 32 bytes), at most one `experimental` flag, and exactly one `solc` release of three bytes or version text. |
| Bytecode.StripsTrailer | lucent/verified_source.py:681-697 | Every body, metadata and length is stripped to its body. |
| Bytecode.StripsOnlyTrailer | lucent/verified_source.py:681-697 | Whatever is stripped was a trailer: metadata after an INVALID, then its length. |
| Bytecode.StripIdempotent | lucent/verified_source.py:681-697 | Stripping twice is stripping once, for all bytecode. |
| Bytecode.WithoutSolidityMetadata | lucent/verified_source.py:681-697 | The branches of the source compute the stripped code that the laws above are about. |
| Bytecode.NoBoundaryInside | lucent/verified_source.py:700-712 | No instruction boundary lies inside another instruction. |
| Bytecode.HasUnsupportedDispatch | lucent/verified_source.py:700-712 | The sweep answers true exactly when some instruction boundary of the stripped code holds CALLCODE or DELEGATECALL. |
| Bytecode.InvalidIsInert | lucent/verified_source.py:700-712 | A trailing INVALID adds no dispatch and hides none, even behind a truncated PUSH. |
| Bytecode.MetadataIsInvisible | lucent/verified_source.py:681-712 | For every code and every metadata map, the verdict on code, INVALID, metadata and length is the verdict on the code alone. |
| Disassembly.DispatchIff | lucent/verified_source.py:700-712 | The sweep reads any program as it was assembled: it reports a dispatch if and only if one of the instructions is 0xF2 or 0xF4, whatever the pushes carry and even if the last push is cut off. |
| Disassembly.EveryCodeAssembles | lucent/verified_source.py:700-712 | Every byte string is the assembly of such a program and a cut-off tail. |
| Disassembly.VerdictIff | lucent/verified_source.py:681-712 | Over code, 0xFE, accepted metadata and its two-byte length, the verdict is whether the program contains 0xF2 or 0xF4. |
| Disassembly.StrippedIff | lucent/verified_source.py:681-697 | Stripping keeps a shorter body if and only if that ends in 0xFE and is followed by accepted metadata and its two-byte length. |
| ProxyChain.WalkResolves | lucent/verified_source.py:715-771 | Whatever the endpoint answers, even differently to the same question, the walk returns a resolution exactly when it is one: at most four hops of distinct proxies, each leading to the next, from the requested address to an unvisited contract that is no proxy, without dynamic dispatch when direct. |
| ProxyChain.CyclesNeverReturn | lucent/verified_source.py:724-727 | A chain that can only lead around a cycle never returns. |
| ProxyChain.ResolveProxyChain | lucent/verified_source.py:715-771 | The loop terminates, gives exactly the walk's answer or error, and makes at most 23 RPC calls. |
| ProxyChain.ReadAccount | lucent/verified_source.py:728-746 | One account is read in at most three calls, and classified as direct, proxy, beacon proxy or unreadable. |
| ProxyChain.FollowBeacon | lucent/verified_source.py:752-760 | A beacon is followed in at most two calls, refusing visited and self-referring beacons. |
| ProxyReplies.TwoAddressesAreAmbiguous | lucent/verified_source.py:732-739 | Wherever the walk stands, two well-formed nonzero slot words end it as ambiguous. |
| ProxyReplies.NoAddressEnds | lucent/verified_source.py:740-747 | Two zero words end the walk at this account, unless it is a direct target that dispatches dynamically. |
| ProxyReplies.ImplementationIsFollowed | lucent/verified_source.py:748-771 | Only the implementation word set: the walk goes on at the address in its last 20 bytes, unless that would be a fifth hop. |
| ProxyReplies.BeaconIsFollowed | lucent/verified_source.py:748-771 | Only the beacon word set: the walk goes on at the address in the beacon's reply, and fails with the exact error when it is too deep, the beacon was visited or names itself, or its code or reply is bad. |
| ProxyReplies.BadReplyFails | lucent/verified_source.py:545-587 | Every reply that ends the walk before a decision, in order: a visited account, failed, oversized or empty code, a failed, oversized or malformed slot word; with none of them the walk decides. |
| ProxyChain.ResolveVerifiedSource | lucent/verified_source.py:879-918 | A full resolution makes at most 26 RPC calls and 27 HTTP requests, fails only with an upstream answer or a walk error, in the source's order, and never for a call limit, whatever the chain looks like and whatever the endpoint answers. |
| ProxyChain.HttpClient.Json | lucent/verified_source.py:377-395 | Every request is counted, and answered only within the request limit. |
| ProxyChain.RpcClient.Call | lucent/verified_source.py:457-470 | Every call is counted; within both limits it reaches the endpoint. |
| SourceCache.EvictFits | lucent/hosted.py:268-273 | Eviction gives up a prefix of the recency order and ends with room for one more result of the given size. |
| SourceCache.EvictsShortest | lucent/hosted.py:268-273 | Eviction drops the least recently used results and no more of them than needed for the new one to fit. |
| SourceCache.TrimsOldest | lucent/hosted.py:317-319 | When too many failures are remembered, exactly the oldest ones over the limit are forgotten. |
| SourceCache.PassKeeps | lucent/hosted.py:284-303 | A pass of the loop keeps the tables in order, within their bounds and pairwise disjoint. |
| SourceCache.FinishSuccessKeeps | lucent/hosted.py:329-332 | Publishing a result keeps that invariant. |
| SourceCache.FinishFailureKeeps | lucent/hosted.py:309-321 | Remembering a failure keeps that invariant and adds at most that failure. |
| VerifiedSourceCaches.VerifiedSourceCache.constructor | lucent/hosted.py:207-240 | A new cache is empty and valid. |
| VerifiedSourceCaches.VerifiedSourceCache.ExpireLocked | lucent/hosted.py:247-254 | Both loops leave exactly the unexpired results and failures, with an exact byte counter. |
| VerifiedSourceCaches.VerifiedSourceCache.Probe | lucent/hosted.py:284-303 | One pass of the loop: the answer and the new tables are those of the table step, with an exact byte counter. |
| VerifiedSourceCaches.VerifiedSourceCache.StoreSuccessLocked | lucent/hosted.py:256-279 | Storing evicts exactly as the table step does, and the byte counter stays the sum of the cached sizes. |
| VerifiedSourceCaches.VerifiedSourceCache.Succeed | lucent/hosted.py:329-333 | A returned result is published and its key no longer in flight. |
| VerifiedSourceCaches.VerifiedSourceCache.Fail | lucent/hosted.py:309-322 | A source error is remembered for the negative time to live, within the entry limit. |
| VerifiedSourceCaches.VerifiedSourceCache.Crash | lucent/hosted.py:323-327 | Any other `Exception` of the resolver leaves nothing behind: the key is no longer in flight and nothing is remembered. |
| SingleFlight.StepKeeps | lucent/hosted.py:281-334 | Every thread step keeps the concurrency invariant, the death of a resolver included. |
| SingleFlight.SingleFlightPerKey | lucent/hosted.py:296-303 | In every reachable state no two threads run the resolver for one key. |
| SingleFlight.TablesDisjoint | lucent/hosted.py:281-334 | Results, failures and keys in flight are pairwise disjoint and within their bounds, and cached bytes within the byte limit. |
| SingleFlight.LedIff | lucent/hosted.py:305-334 | A key in flight has a running resolver if and only if no resolver for it was ended by an exception outside `Exception`. |
| SingleFlight.NoLostWakeup | lucent/hosted.py:303-332 | The key of every waiter not yet notified is in flight, and some running resolver notifies the waiter by every handled end, if and only if no resolver for that key was ended by an exception outside `Exception`. |
| SingleFlight.WaiterGetsStuck | lucent/hosted.py:305-327 | A run in which a resolver is ended by an exception outside `Exception` while another thread waits for it. |
| SingleFlight.StuckForever | lucent/hosted.py:284-303 | Over every continuation such a waiter is still waiting, and its key still takes a place in flight. |
| SingleFlight.ServedIsFresh | lucent/hosted.py:286-295 | A cached answer is a resolver's result for that key less than the time to live old, a cached failure likewise within its own. |
| SourceAnswers.PassAnswers | lucent/hosted.py:281-304 | What a pass answers and leaves, exactly: a fresh result is served, a fresh failure repeated, a key in flight waited for, otherwise the caller leads or every place in flight is taken; everything fresh stays and nothing else. |
| SourceAnswers.SuccessLeaves | lucent/hosted.py:256-279 | A published result is stored for one time to live, at the cost of exactly the shortest prefix of oldest results in its way; one that can never fit is not stored and costs nothing. |
| SourceAnswers.RoomyStoreKeepsAll | lucent/hosted.py:256-279 | While entries and bytes allow it, publishing gives up nothing. |
| SourceAnswers.FailureLeaves | lucent/hosted.py:309-322 | A source error is remembered for the negative time to live, the oldest failures over the limit are forgotten, and without such a time nothing is. |
| SourceAnswers.SuccessIsServed | lucent/hosted.py:281-333 | Over every run, a result that fits is served, that very one, to every look at its key within its time to live unless another result pushed it out. |
| SourceAnswers.FailureIsRepeated | lucent/hosted.py:281-322 | Over every run, a remembered failure is repeated to every look at its key within the negative time to live unless newer ones pushed it out. |
| SourceAnswers.OrderIsRecency | lucent/hosted.py:256-333 | In every reachable state results and failures stand in the order in which the history last published or served, remembered or repeated them. |
| SourceAnswers.OutcomeIff | lucent/hosted.py:305-333 | Over every run, a thread has returned a result of its own exactly if its resolver gave that result, has raised exactly if it raised, and has died exactly if it was ended. |
| CanonicalLaws.NamedKeyRoundTrip | scripts/audit.py:47-74 | Canonicalizing a key written with any parameter names, extra words and blanks gives the canonical signature, for every nesting of tuples and arrays. |
| CanonicalLaws.SignatureRoundTrip | scripts/common.py:206-215 | For every function, canonicalizing its signature printed with names gives its canonical signature, which is itself left unchanged. |
| CanonicalLaws.SplitList | scripts/audit.py:30-44 | Splitting a printed parameter list gives back its parameters, names inside nested tuples included. |
| CanonicalLaws.CanonTuple | scripts/audit.py:58-71 | A tuple is split at its own closing parenthesis; its array suffix stays and its name goes. |
| CanonicalLaws.SplitParameters | scripts/audit.py:30-44 | The depth-counting loop cuts exactly at the commas outside all parentheses. |
| CanonicalLaws.FindClosing | scripts/audit.py:60-64 | The inner loop finds the parenthesis that closes the leading one, or that none does. |
| CanonicalLaws.CanonicalComponent | scripts/audit.py:58-72 | The recursive loop computes the component function the round trips are about. |
| CanonicalLaws.CanonicalizeKey | scripts/audit.py:47-74 | The whole canonicalizer computes the key function the round trips are about. |
| Keys.SeparatorIff | scripts/audit.py:72 | Which characters end a type: exactly the 29 blank code points, and what follows them is dropped; any other character stays. |
| Keys.BlankParameterIsDropped | scripts/audit.py:30-44 | An empty or blank parameter, wherever it stands in a named key, is dropped. |
| Keys.MalformedStays | scripts/audit.py:53-71 | A key not of the form `name(...)` and a group that is never closed are left as they are. |
| Keys.SignatureText | scripts/common.py:206-215 | A canonical signature is the name and its parameters' types in parentheses with a comma between neighbours; a tuple's type is its components' types so written, then its suffix. |
| AbiPaths.LeafPathsResolve | lucent/preflight.py:400-482 | Each enumerated path resolves, through lookup, to its own leaf in ABI order. |
| AbiPaths.LeafPathsDistinct | lucent/preflight.py:462-482 | Enumerated paths are pairwise distinct. |
| AbiPaths.FunctionLeafPaths | lucent/preflight.py:462-516 | For a validated function: leaf paths of all inputs are distinct, non-empty, and each resolves to its own scalar or empty-tuple leaf. |
| AbiPaths.EnumeratedIff | lucent/preflight.py:400-429 | A path is enumerated if and only if lookup reaches a leaf by it without stepping from an array of tuples straight to a component. |
| AbiPaths.ShortcutExists | lucent/preflight.py:413-428 | A path that lookup resolves to a leaf and enumeration does not contain. |
| AbiPaths.ResolvePath | lucent/preflight.py:400-429 | The lookup loop computes the recursive target. |
| AbiPaths.ArrayBaseIff | lucent/preflight.py:49 | A type is an array over a base if and only if it is the base, without a line break, followed by bracketed digits or none. |
| AbiPaths.DecimalIsRead | lucent/preflight.py:479 | The number in the name of an unnamed component is its index in decimal, without leading zeros. |
| AbiPaths.JoinOfSplit | lucent/preflight.py:774 | Joining the dot-separated segments gives back the path text. |
| AbiPaths.SplitOfJoin | lucent/preflight.py:774 | Segments without dots are read back from their text. |
| Presentation.OpaqueFindings | lucent/preflight.py:874-894 | The stack walk terminates and reports every truncated or overlong value, in its order; nothing exactly when all can be reviewed in full. |
| Presentation.NoCodesIff | lucent/preflight.py:874-894 | No finding below a value if and only if every value below it is short enough, at any depth. |
| Presentation.ExamineFields | lucent/preflight.py:724-836 | The field loop reports each field's finding and collects exactly the paths shown without one. |
| Presentation.ExamineInput | lucent/preflight.py:838-862 | The coverage loop reports each required path that is not shown, or shown only through a container. |
| Presentation.NothingFoundIff | lucent/preflight.py:697-895 | No finding if and only if the intent matches, no field is wrong, every signed leaf is a shown one-segment path, value is always visible, and every decoded value can be reviewed. |
| Presentation.PresentationBinding | lucent/preflight.py:697-895 | The whole analysis gives exactly the findings, in order, and none exactly when the screen binds what is signed. |
| Presentation.CallGate | lucent/preflight.py:1318-1329 | The composed verdict: exactly when it is clear, when it asks for review, and when it blocks for value, a missing format or an unbound screen. |
| Screens.FormatMatchesIff | lucent/preflight.py:432-459 | The format table read by format instead of by type: which ABI types each of the ten formats may render, an absent one being raw. |
| Screens.NoFindingIff | lucent/preflight.py:724-836 | A field earns no finding if and only if it is on sender, destination or value, or on a call argument that resolves, and, if visible, has the one clear format (addresses by name; numbers raw, amount or duration; all else raw), no parameters, and a label that fits its role. |
| Screens.ArgumentCodes | lucent/preflight.py:786-836 | Exactly which code a visible field on a call argument earns: a misfit format, a raw address, a format or parameters without assurance, or a contradicting label. |
| Screens.TransactionCodes | lucent/preflight.py:729-765 | Exactly which codes a field on sender, destination or value earns. |
| Screens.PathCodes | lucent/preflight.py:766-785 | Exactly when a field's path is unsupported or unresolved, whatever its visibility. |
| Screens.InputCoverage | lucent/preflight.py:838-862 | Exactly which coverage codes an input earns: a leaf that is not shown, or one shown only inside a collection or a structure. |
| Screens.OpaqueCodesIff | lucent/preflight.py:874-894 | A truncation or length code is reported if and only if such a value stands somewhere inside, at any depth. |
| Screens.FindingIff | lucent/preflight.py:697-895 | A code is among all findings if and only if the intent, a field, an uncovered input, a hidden value or an unreviewable argument earns it. |
| Screens.ReasonIff | lucent/preflight.py:963-1043 | Each reason of the verdict is given exactly when its cause is present and every earlier one is absent. |
| Screens.SafeIff | lucent/preflight.py:1318-1329 | For validated names and distinct field paths, the verdict is `safe_to_present` if and only if the intent matches, every field is proper, every input is one signed value that exactly one visible field shows in a clear format for its type, nonzero value is accepted and always shown as an amount, no decoded value is truncated or over 256 characters, and the analyses found nothing above LOW and no tier above MEDIUM. |
| Screens.SafeMeansShown | lucent/preflight.py:1318-1329 | After a clear verdict every input has one visible, parameter-free field under its own name: an address by name, a number raw or as an amount or a duration, anything else raw. |

## Left out

- Rounding: clock readings, deadlines and quota are floating-point numbers in the source and exact reals here.
- Facilitator, HTTP, JSON and x402 decoding: their answers are arbitrary; deadlines and malformed replies are failures.
- The authorization fingerprint and `PaymentGateway.settle`'s own bookkeeping: a request carries its fingerprint as data, and every settlement failure is taken as terminal, as the gateway marks it.
- Cached response header names and their number: only the line length, newline and status rules are modelled, the names being constants of the handler.
- Re-rendering of a replayed body under a new request id, and the decoding of that body.
- API-key access, which uses the same ledger without claims or settlement, and API-key authentication.
- Cancellation in the middle of a ledger call: ledger calls do not await, so a handler is never cancelled inside one.
- PaidSafety.NothingLeftBehind: excludes cancelled requests, whose reservations stay until they expire because cancellation skips the cleanup.
- ProxyChain.ResolveVerifiedSource: block identity, source binding and ABI validation are single answers that succeed or fail.
- CanonicalLaws.SignatureRoundTrip: asks for types without blanks, commas or parentheses and for tuple types whose suffix is empty or starts with a bracket; for other type strings the printer itself is ambiguous.
- Presentation.PresentationBinding: the keyword tables (intent match, input roles, label fit) are arguments, and the audit, danger and comprehension analyses enter the verdict as their severities.
- ABI inputs whose JSON is not an object or whose type is not text: rejected before these functions run.
- Report writers, registries, command line tools, the MCP server and service configuration: no invariant beyond single branches.

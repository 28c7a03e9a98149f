# SauronID gateway: verified model

A Dafny model of the protocol core of the SauronID gateway (the Rust crate under `core/`), with proofs. `dafny verify dfyconfig.toml` checks all of it.

What is modelled, and the main results:

- **Ring signatures** (`RingSignature`, `RingMembership`). Signing walks the ring cyclically from the signer, verification walks it linearly from index 0. Whatever the ring, the message and the random choices, what `Sign` returns is accepted; the linear check accepts exactly the signatures whose challenges close into a cycle. On top of that, for any sequence of subscribe and revoke calls, an agent finds itself in the ring list exactly while it is subscribed, and its signature over that list verifies under its per-ring key image. Scalars and points are residues modulo the group order, a point being its discrete logarithm; both hashes are arbitrary functions.
- **Action anchoring** (`AnchorProtocol`, `AnchorTiming`, `AnchorBatches`, `AnchorStore`, `AnchorWitnesses`, `Checkpoints`). A state machine whose steps are the database sections of an anchor pass, with any number of passes of any tenants interleaved and receipts arriving at any time with any new id. In every reachable state the ranges of the submitted batches reach from zero to the largest submitted key without a gap, and a receipt in them is anchored if and only if it was stored before the fetch of a submitted batch whose range takes it in. A batch refetched by its stored bounds is the batch that was sealed if and only if no receipt within the bounds arrived since the fetch, which comparing the length with the stored count detects. In every run the submitted batches of a tenant are pairwise disjoint if and only if none, when submitted, had a receipt in common with a submitted one by range and time; having been read after the largest submitted key is enough for that, and the only way when receipts come in time. One pass at a time with watermark reads that neither fail nor tie is enough too; a tie and a failed read each lead to a receipt that is submitted twice. Every accepted transparent proof traces back to a submitted batch of compatible, MAC-valid receipts that its key range held exactly at some moment, however late other receipts arrive. The proof lookup never returns another receipt's index; it is sure to find an anchored receipt exactly if the bounds of every oldest row of its second take the receipt in.
- **Single-use ledgers** (`ReplayLedger`, `Dpop`, `PopChallenges`, `Payments`, `Transactions`). Consumes, deletions and garbage collection as interleaved steps. A DPoP proof is accepted at most once in every history if and only if inserts lag their freshness check by less than 61 seconds less the sub-second part of the skew. A proof-of-possession challenge is taken at most once in every run if and only if ids never repeat. The serializable retry loop refines one atomic transaction, and a payment authorization is claimed exactly by the first claim of its tenant before it expires.
- **Rate limiting** (`RateLimit`, `RateConfig`). With one clock that does not go back, a window lets through exactly as many attempts as its limit allows, and any stretch as long as a window at most twice as many, if and only if the collector's windows are no narrower than the limiter's. Both widths come from one setting, which the limiter trims and the collector does not; the settings under which the limit fails are characterised.
- **Ledger conservation** (`SpendLedger`, `UsageLedger`). Spend totals over all periods are the sum of the log after every run; usage tokens in the ledger never exceed the log, and everything agrees whenever no record is between its two statements; for dollars the inequality holds in every run if and only if no price is negative.
- **Sessions** (`Sessions`). A minted token verifies exactly for its tenant until it expires, unless the tenant name holds a bar or the owner is no key image. Over runs, while the reads of the epoch succeed, it authenticates exactly until the first later revocation that finds the owner's credential row; without a row a revocation is lost. A read that fails counts as epoch 0: it lets a revoked session of epoch 0 through and refuses every live session of a later epoch.
- **Encodings** (`CanonicalFields`, `Payloads`, `CanonicalJson`, `JsonText`, `AgentChecksum`, `SolanaMemo`). Canonical framing is injective, and no two of the nine modelled kinds of framed statement share their bytes. Two agent descriptions have one checksum preimage if and only if their types agree and their inputs differ in object key order only. Solana messages determine their parts.
- **SQL translation** (`SqlText`, `SqlWords`, `SqlTranslate`, `SqlPipeline`, `SqlIdempotence`, `SqlQuotes`, `SqlData`). The scanner and the replacement loop meet position-wise specifications, and translating twice is translating once exactly for the statements that do not repeat `begin immediate` in one of six ways. Quoted text comes through a translation unchanged exactly for the statements that have no `ifnull(` and no `begin immediate` inside quotes and no `strftime` call, and that do not end inside a quote when a conflict clause is appended.

`Wrappers`, `Text`, `Order` and `ModArith` hold shared types, UTF-8 and decimal text, sorted lists and modular arithmetic.

Where the code and its documentation disagree, the model follows the code:

- `core/src/sql_translate.rs:20-21` claims idempotence for statements without any of the rewritten constructs, and the case at lines 243-250 for one with several; `SqlIdempotence.IdempotentIff` says exactly for which it holds, and `SqlIdempotence.NotIdempotent` gives one that changes twice.
- `core/src/sql_translate.rs:32-34` calls quoted text data, and the placeholder scanner treats it so; the other rewrites do not look at quotes. `SqlQuotes.QuotedDataChanges` gives a literal that is rewritten, and `SqlData.DataKeptIff` says exactly which statements keep their data.
- `core/src/agent_action_anchor.rs:594-601` says that the stored bounds make the rebuilt batch identical to the anchored one. `AnchorTiming.RebuildIff` says exactly when, and `AnchorWitnesses.LateReceiptRefused` gives a receipt that arrives later and spoils it.
- `core/src/user_session.rs:133-134` says a revocation invalidates every session of an owner. `Sessions.RevocationWithoutRow` gives an owner without a credential row for whom it does not, and `Sessions.RevokedButUnread` an owner with one, when the next read of the epoch fails. `Sessions.RevocationEndsSessions` and `Sessions.SessionLives` say exactly when it does.
- `core/src/agent_action_anchor.rs:472-478` says that a batch is identified by its range of seconds; `AnchorWitnesses.DriftIsReachable` gives an anchored receipt for which that picks the wrong batch.
- `core/src/state.rs:315-320` and `core/src/risk.rs:84-90` read the window width differently; `RateConfig.BlankBreaksLimit` gives a setting under which the limit is lost.
- The comments on the retry back-off (`core/src/repository.rs:321`) do not match its formula; no time bound is stated.

Hypotheses, all stated as preconditions or step guards: receipt ids are new; a failed commit applies nothing; a deployment reads one clock that does not go back; compressed points survive the trip through hex; JSON objects have distinct keys. That receipts come in time, with a key in no range already fetched or sealed, is a hypothesis only of the members whose row says so.

## Model

| member | source | states |
|---|---|---|
| `RingSignature.FromScalar` | core/src/identity.rs:62-66 | the identity of a scalar keeps that scalar as its secret and has its multiple of the base point as public key |
| `RingSignature.CycleWalk` | core/src/ring.rs:65-84 | the linear walk from index 0 passes through the challenges of any closed cycle and returns to the first |
| `RingSignature.AcceptsIffCycle` | core/src/ring.rs:65-84 | the linear check accepts exactly if the challenges close into a cycle through the stored one, for a nonempty ring with one response per member |
| `RingSignature.RotatedCycle` | core/src/ring.rs:65-84 | a closed cycle of challenges stays one from any member on |
| `RingSignature.RotatedRingAccepts` | core/src/ring.rs:65-84 | an accepted signature is accepted from any starting member, with the challenge the walk has there |
| `RingSignature.SignerLink` | core/src/ring.rs:38-62 | the signer's response makes its link reproduce the commitment made with alpha, in both coordinates |
| `RingSignature.Sign` | core/src/ring.rs:29-63 | for every ring, message, alpha and random responses, the signature of a member verifies, carries its key image and keeps the random responses of everybody else |
| `RingSignature.Verify` | core/src/ring.rs:65-84 | true exactly if a closed cycle exists; false for an empty ring or a wrong number of responses |
| `RingSignature.PositionOf` | core/src/ring.rs:104-106 | the first index of a member, or none |
| `RingSignature.Group.AddMember` | core/src/ring.rs:99-103 | the list stays free of duplicates and grows by the new member only |
| `RingSignature.Group.Prove` | core/src/ring.rs:104-107 | a proof exactly for members, and it verifies |
| `RingSignature.Group.VerifyProof` | core/src/ring.rs:108-111 | verification over the group's own list, never for an empty group |
| `RingMembership.SharedSecretsAgree` | core/src/ring_pseudonym.rs:46-60 | agent and operator derive the same shared point |
| `RingMembership.PseudonymsAgree` | core/src/ring_pseudonym.rs:74-110 | the agent's per-ring identity is valid, its public key is the point the operator derives from the master key alone, and its key image is the per-ring key image |
| `RingMembership.RunHoldsSubscribed` | core/src/rings.rs:303-332 | after any sequence of calls a row is in the table exactly if it was subscribed and not revoked since |
| `RingMembership.RunWellFormed` | core/src/rings.rs:158-166 | every stored string is the hex of a point |
| `RingMembership.MemberListUnique` | core/src/rings.rs:281-301 | the ordered ring list is unique, so signer and verifier build the same ring |
| `RingMembership.DecodedIsMemberList` | core/src/rings.rs:283-301 | decoding the sorted strings gives the strictly ascending list of exactly the stored points |
| `RingMembership.RingStore.InsertMember` | core/src/rings.rs:239-254 | adds the row if it was not there and says so; a database error changes nothing |
| `RingMembership.RingStore.DeleteMember` | core/src/rings.rs:257-269 | removes that row only and says if it was there; a database error changes nothing |
| `RingMembership.RingStore.SubscribeAgent` | core/src/rings.rs:305-317 | performs the subscribe step; fails, without effect, exactly if the master key does not parse or the insert fails |
| `RingMembership.RingStore.RevokeAgent` | core/src/rings.rs:322-332 | performs the revoke step, true exactly if the table changed; fails, without effect, exactly if the key does not parse or the delete fails |
| `RingMembership.RingStore.ListMemberPoints` | core/src/rings.rs:283-301 | fails exactly if the query does or a stored string of the ring does not decode, otherwise returns the ring list |
| `RingMembership.MemberFindsItself` | core/src/rings.rs:283-332 | after any sequence of calls an agent finds the point it derives for itself in the ring list exactly while it is subscribed |
| `RingMembership.SignAsMember` | core/src/ring_pseudonym.rs:94-110 | the signature of a still-subscribed agent over the ring list verifies and carries the per-ring key image |
| `AnchorProtocol.OrderedSpec` | core/src/agent_action_anchor.rs:219-228 | the ordered query returns exactly the matching receipts, strictly ascending |
| `AnchorProtocol.FetchCovers` | core/src/agent_action_anchor.rs:215-240 | the capped query takes a gapless range of 1 to 10,000 receipts after the watermark |
| `AnchorProtocol.AppendKeepsInv` | core/src/agent_action/validate.rs:273-331 | a new receipt, whatever its key, leaves every row and pass the range it was read from |
| `AnchorProtocol.StepKeepsInv` | core/src/agent_action_anchor.rs:192-424 | every step of every pass keeps rows and passes justified and the submitted ranges without a gap |
| `AnchorProtocol.RunKeepsInv` | core/src/agent_action_anchor.rs:192-424 | the invariant holds in every state of every run |
| `AnchorTiming.AnchorCoverage` | core/src/agent_action_anchor.rs:192-424 | in every run, whichever tied watermark is read, however passes end and whenever receipts arrive: a receipt lies above zero and up to the largest submitted key exactly if a submitted range takes it in, it is anchored exactly if it was stored before the fetch of such a batch, and each batch holds 1 to 10,000 receipts of its tenant only |
| `AnchorTiming.CoverageIff` | core/src/agent_action_anchor.rs:192-424 | in every run the anchored receipts are exactly those up to the largest submitted key, exactly if no receipt came late for all submitted ranges that take it in |
| `AnchorTiming.SealedIffHeld` | core/src/agent_action_anchor.rs:602-617 | a row was sealed over exactly the receipts its stored bounds take in that were stored before its fetch |
| `AnchorTiming.RebuildIff` | core/src/agent_action_anchor.rs:592-641 | in every run the refetched batch has every sealed receipt, and is the sealed list exactly if nothing within the bounds arrived since the fetch, which is exactly if its length is the stored count; then its leaves are the sealed leaves exactly without an audit head, and the root is the stored root |
| `AnchorTiming.AppendCompleteIff` | core/src/agent_action/validate.rs:273-331 | appending a receipt leaves every fetched and sealed batch complete exactly if it falls into none of their ranges |
| `AnchorTiming.LargerKeyInTime` | core/src/agent_action/validate.rs:273-331 | a receipt with a larger key than all of its tenant falls into none |
| `AnchorTiming.InTimeCoverage` | core/src/agent_action_anchor.rs:192-424 | in runs whose receipts come in time, the anchored receipts are exactly those up to the largest submitted key |
| `AnchorTiming.RebuildIsStable` | core/src/agent_action_anchor.rs:592-620 | in such runs every batch can be rebuilt from its bounds at any later time |
| `AnchorBatches.DisjointIffLargest` | core/src/agent_action_anchor.rs:199-240 | with complete batches, a fetched batch repeats no submitted receipt exactly if its watermark was the largest submitted key |
| `AnchorBatches.NoTieDisjoint` | core/src/agent_action_anchor.rs:204-206 | without a tie at the top, the next batch repeats nothing, late receipts or not |
| `AnchorBatches.DisjointIffNoTie` | core/src/agent_action_anchor.rs:204-206 | with complete batches, the next batch repeats nothing, whichever row the watermark query returns, exactly if no two submitted rows tie at the top |
| `AnchorBatches.TieWitness` | core/src/agent_action_anchor.rs:204-206 | with a tie the query may return the smaller key, and something is then fetched again |
| `AnchorBatches.SerialStepKeeps` | core/src/agent_action_anchor.rs:192-424 | without overlapping passes, ties or failed watermark reads, every step keeps submitted batches apart |
| `AnchorBatches.SerialBatchesDisjoint` | core/src/agent_action_anchor.rs:192-424 | in such runs, late receipts or not, the submitted batches of a tenant are pairwise disjoint, gapless as fetched, and each starts where a submitted batch ended |
| `AnchorBatches.StepDisjointIff` | core/src/agent_action_anchor.rs:402-420 | a step keeps the submitted batches disjoint exactly if what it submits, if anything, has no receipt in common with a submitted one by range and time of fetch |
| `AnchorBatches.DisjointRunIff` | core/src/agent_action_anchor.rs:192-424 | in every run the submitted batches of a tenant are pairwise disjoint exactly if at no submission a receipt stored before both fetches lay in the new range and in a submitted one |
| `AnchorBatches.DisjointIffInOrder` | core/src/agent_action_anchor.rs:192-424 | in every run they are if each was read after the largest key submitted by the time it was submitted itself, and in runs whose receipts come in time only if |
| `AnchorWitnesses.TieIsReachable` | core/src/agent_action_anchor.rs:192-424 | two receipts of one second, anchored one after the other, lead to a tie |
| `AnchorWitnesses.TieSealsTwice` | core/src/agent_action_anchor.rs:199-213 | from the tie, a pass seals and submits a receipt a second time |
| `AnchorWitnesses.FailedReadSealsTwice` | core/src/agent_action_anchor.rs:199-213 | a failed watermark read does so without a tie and with one pass at a time |
| `AnchorWitnesses.LateReceiptSkipped` | core/src/agent_action_anchor.rs:215-228 | a receipt that arrives below a submitted key of its second is in no batch and no readable watermark leaves it to fetch |
| `AnchorWitnesses.LateReceiptRefused` | core/src/routes.rs:240-312 | a receipt that arrives between two sealed ones makes the count of a good row disagree, and no transparent checkpoint is then approved for it |
| `AnchorWitnesses.DriftIsReachable` | core/src/agent_action_anchor.rs:495-536 | an anchored receipt whose lookup always picks another batch of its second |
| `AnchorStore.SelectWatermark` | core/src/agent_action_anchor.rs:199-213 | the watermark is one the query may return, and zero without a submitted row |
| `AnchorStore.PositionOf` | core/src/agent_action_anchor.rs:636-639 | the index of the receipt with that id, or none |
| `AnchorStore.CountBatch` | core/src/routes.rs:288-305 | the three totals agree exactly if every row is compatible and MAC-valid |
| `AnchorStore.ActionLog.AppendReceipt` | core/src/agent_action/validate.rs:273-331 | adds the receipt and keeps the invariant; the batches stay complete exactly if it came in time |
| `AnchorStore.ActionLog.ReadWatermark` | core/src/agent_action_anchor.rs:199-213 | performs the first section of a pass; a failed query reads as zero |
| `AnchorStore.ActionLog.FetchPending` | core/src/agent_action_anchor.rs:215-244 | empty exactly if nothing is pending after the watermark; otherwise a gapless range of 1 to 10,000 receipts that starts right after it, and all of them below the cap |
| `AnchorStore.ActionLog.PersistBatch` | core/src/agent_action_anchor.rs:256-308 | performs the sealing and the insert of the pending row |
| `AnchorStore.ActionLog.FinishPass` | core/src/agent_action_anchor.rs:402-420 | performs the last section: submitted only if every configured provider accepted |
| `AnchorStore.ActionLog.ProofInBatch` | core/src/agent_action_anchor.rs:602-643 | the index of that very receipt in the refetched batch and the leaves of that batch, or an error exactly if it is not in it; the leaves are the sealed ones exactly if nothing arrived within the bounds since the fetch |
| `AnchorStore.ActionLog.PickBatch` | core/src/agent_action_anchor.rs:479-536 | the receipt and an oldest row of its second, or none exactly if there is no such pair |
| `AnchorStore.AlwaysProvedIff` | core/src/agent_action_anchor.rs:495-639 | an anchored receipt has a row to look in, and is sure of its proof exactly if the bounds of every oldest row of its second take it in |
| `AnchorStore.ActionLog.ProofForReceipt` | core/src/agent_action_anchor.rs:465-643 | picks an oldest row of the receipt's second; a proof, for that very receipt, comes exactly if the picked row's bounds take it in; a failed lookup is no proof, a failed refetch an error |
| `Checkpoints.StepFreezesRows` | core/src/agent_action_anchor.rs:281-420 | no step changes a submitted row, nor the batch any row stands for |
| `Checkpoints.InvCountsTell` | core/src/routes.rs:240-312 | receipts counted in the key range of a row that are as many as the row says are the batch it was sealed over |
| `Checkpoints.ActionKeeps` | core/src/routes.rs:114-381 | anchoring steps, receipts that arrive late, the sections of a finaliser and accepted proofs keep every checkpoint backed, in any interleaving |
| `Checkpoints.HistoryCounted` | core/src/routes.rs:240-312 | the row behind every transparent checkpoint was once counted: as many receipts in its range as it says, all compatible and MAC-valid |
| `Checkpoints.CheckpointTraceability` | core/src/routes.rs:397-494 | in every history, late receipts included, every accepted transparent proof names a finalized checkpoint of its tenant with the root, size and anchor of a submitted v2 row, sealed over exactly that many receipts, all compatible and MAC-valid; its range held exactly as many, all good, at some moment, and holds the sealed batch now exactly if nothing arrived within the bounds since the fetch |
| `Checkpoints.InTimeTraceability` | core/src/routes.rs:397-494 | in histories whose receipts come in time the range holds them from finalisation on |
| `Text.Utf8Injective` | core/src/crypto_protocol.rs:41-49 | equal bytes mean equal text |
| `Text.ParseOfDecimal` | core/src/user_session.rs:110-111 | parsing what was printed gives the number back exactly for the 64-bit range |
| `CanonicalFields.UnframeOfFrames` | core/src/crypto_protocol.rs:41-55 | a reader of the framing gets back the framed values |
| `CanonicalFields.FramesOfUnframe` | core/src/crypto_protocol.rs:41-55 | bytes that read as frames are the framing of what was read |
| `CanonicalFields.EncodingInjective` | core/src/crypto_protocol.rs:41-55 | equal bytes force equal domains and equal field lists, whatever the field counts |
| `CanonicalFields.PushLenPrefixed` | core/src/crypto_protocol.rs:51-55 | appends the four length bytes and the value |
| `CanonicalFields.Encode` | core/src/crypto_protocol.rs:41-49 | the appending loop computes the framing of the domain and every name and value |
| `Payloads.Build` | core/src/crypto_protocol.rs:71-269 | each builder's bytes read back as its own domain and fields |
| `Payloads.DomainsDiffer` | core/src/crypto_protocol.rs:71-269 | every kind of statement has its own domain |
| `Payloads.SameFields` | core/src/agent_action_anchor.rs:129-163 | within a kind, equal field lists mean equal statements, numbers included |
| `Payloads.PayloadInjective` | core/src/crypto_protocol.rs:71-269 | no two statements share their bytes; in particular an audit-head leaf is never a receipt leaf, nor a v2 call a v3 call |
| `Transactions.IsRetryable` | core/src/repository.rs:313-317 | exactly the backend errors that mention the serialization failure |
| `Transactions.Attempt` | core/src/repository.rs:283-320 | one attempt: made again exactly on a conflict, effects only if it commits, the body's own error kept |
| `Transactions.TxnSerializable` | core/src/repository.rs:265-329 | at most three attempts; success is the value and store of one attempt on what it saw, failure leaves the store to the others; only conflicts are retried |
| `Transactions.Transact` | core/src/any_db.rs:532-551 | all of the body or none of it, and a rollback keeps the body's own error |
| `ReplayLedger.RowLives` | core/src/state.rs:327-347 | a consumed key's row is there exactly until a deletion with a clock past its expiry |
| `ReplayLedger.ConsumeAgainIff` | core/src/repository.rs:338-410 | the next consume of a key succeeds exactly if such a deletion committed since |
| `ReplayLedger.WinsSeparated` | core/src/repository.rs:338-410 | any two successful consumes of a key are separated by a deletion past the first row's expiry |
| `ReplayLedger.NonceTable.ConsumeCallNonce` | core/src/repository.rs:338-371 | one consume step or nothing; a replay verdict is true of the table; an empty nonce, one over 128 bytes and every failing statement is a backend error without effect |
| `ReplayLedger.NonceTable.Sweep` | core/src/state.rs:341-347 | deletes exactly the rows whose expiry lies before the clock |
| `ReplayLedger.ConsumeOnPostgres` | core/src/repository.rs:372-408 | a success is one atomic consume on what the last attempt saw, anything else changed nothing, and a replay verdict is true of that table |
| `ReplayLedger.JtiTable.ConsumeAjwtJti` | core/src/ajwt_support.rs:85-114 | deletes expired rows and consumes in one transaction; a refusal or any failing statement undoes both |
| `Dpop.SecondAcceptanceLags` | core/src/dpop.rs:395-413 | a second acceptance of one proof, in any history, lags its freshness check by at least the safe delay |
| `Dpop.ReplayAccepted` | core/src/dpop.rs:395-413 | at the safe delay there is a history that accepts a proof twice |
| `Dpop.ReplayFreeIff` | core/src/dpop.rs:268-275 | every history accepts each proof at most once exactly for delays below the safe delay; sixty seconds are always safe |
| `Dpop.ConsumeJti` | core/src/dpop.rs:303-320 | the prefixed key is consumed once, and for an admitted `jti` the only error without a database failure is a replay |
| `PopChallenges.StepKeepsInv` | core/src/ajwt_support.rs:175-233 | with distinct ids every step keeps taken challenges out of the table and taken once |
| `PopChallenges.TakenByBoundAgent` | core/src/ajwt_support.rs:203-233 | in every run, a challenge goes only to its agent and only if it had not expired when read |
| `PopChallenges.ReuseTakesTwice` | core/src/ajwt_support.rs:203-233 | any repeated id leads to a run that hands one challenge out twice |
| `PopChallenges.TakenOnceIff` | core/src/ajwt_support.rs:175-233 | every run takes each challenge at most once exactly if ids never repeat |
| `PopChallenges.ChallengeTable.InsertPopChallenge` | core/src/ajwt_support.rs:175-193 | deletes the expired rows and no others, then inserts unless the id is still there; either statement may fail, and the deletion stays |
| `PopChallenges.ChallengeTable.TakePopChallenge` | core/src/ajwt_support.rs:203-233 | the secret exactly for the bound agent in time, if neither statement fails and the row is still there after whatever else happens between them; that agent's take removes the row even when it is late, another's does not |
| `Payments.RowTerms` | core/src/repository.rs:774-807 | a row keeps the tenant, amount and expiry it was issued with |
| `Payments.RowConsumed` | core/src/repository.rs:704-769 | a row is marked consumed exactly if a claim of it succeeded |
| `Payments.ClaimIff` | core/src/repository.rs:704-769 | a claim succeeds exactly if the authorization was issued to that tenant, has not expired and was not claimed before |
| `Payments.ClaimedOnce` | core/src/repository.rs:704-769 | no authorization is consumed twice in any run |
| `Payments.ConsumePaymentAuthorization` | core/src/repository.rs:733-767 | a success is one atomic claim on what the last attempt saw; an error changes nothing and a replay verdict is true of that table |
| `Payments.PaymentTable.Insert` | core/src/repository.rs:774-820 | inserts exactly if neither the id nor the `jti` is there and the database does not fail |
| `Payments.PaymentTable.Consume` | core/src/repository.rs:704-732 | one claim step exactly if it is allowed and neither the update nor the transaction fails, otherwise nothing; refused exactly if the update ran and matched no row |
| `RateLimit.CounterTells` | core/src/risk.rs:127-142 | a counter no deletion reached is the number of attempts in its window |
| `RateLimit.LiveWindowsSpared` | core/src/state.rs:313-354 | neither deletion reaches a window that is counted again, if the collector's windows are no narrower |
| `RateLimit.AcceptedIff` | core/src/risk.rs:99-155 | an attempt is let through exactly if fewer than the limit came before it in its window |
| `RateLimit.AcceptedPerWindow` | core/src/risk.rs:99-155 | a window lets through the smaller of its attempts and its limit |
| `RateLimit.AcceptedDuringBound` | core/src/risk.rs:99-155 | any stretch as long as one window lets through at most twice the limit |
| `RateLimit.NarrowSweepLosesCount` | core/src/state.rs:315-320 | with narrower collector windows some history exceeds the limit |
| `RateLimit.LimitHoldsIff` | core/src/state.rs:313-354 | every history keeps the limit exactly if the collector's windows are no narrower than the limiter's |
| `RateLimit.RateCounters.CheckAndIncrement` | core/src/risk.rs:99-155 | no limit for a nonpositive one, an error for an overlong bucket or a failed transaction; otherwise counts, refuses past the limit, and tidies only after an accepted attempt |
| `RateLimit.RateCounters.Sweep` | core/src/state.rs:348-354 | performs the collector's deletion |
| `RateConfig.ParsedUntrimmed` | core/src/risk.rs:84-90 | a text that parses as it stands has nothing to trim |
| `RateConfig.LimitHoldsForSetting` | core/src/state.rs:315-320 | the limit holds under a setting except where the collector cannot parse it untrimmed and the limiter's width is above the default |
| `RateConfig.BlankBreaksLimit` | core/src/state.rs:315-320 | a leading blank before 3600 breaks the limit |
| `SpendLedger.RecordConserves` | core/src/repository.rs:1093-1128 | one record keeps every owner's totals over periods equal to its log |
| `SpendLedger.RunConserves` | core/src/repository.rs:1061-1236 | after any run each period total is the sum recorded against exactly that tenant, policy, agent and period, and the periods together are the owner's log |
| `SpendLedger.SpendTables.RecordSpend` | core/src/repository.rs:1061-1130 | both tables or neither; one total moves by the amount and no other moves; invalid input, failing statements and a used log id change nothing |
| `SpendLedger.RecordOnPostgres` | core/src/repository.rs:1131-1198 | one whole record on what the last attempt saw, or nothing; balanced tables stay balanced |
| `UsageLedger.StepConserves` | core/src/usage.rs:163-189 | either statement keeps the ledger equal to the log less what is pending |
| `UsageLedger.RunConserves` | core/src/usage.rs:138-194 | that holds at every point of every interleaving |
| `UsageLedger.LedgerWithinLog` | core/src/usage.rs:84-194 | at every point of every run the ledger's tokens never exceed the log's, ledger and log agree when no record is between its statements, and without negative prices the dollars do not exceed either |
| `UsageLedger.NegativePriceOvertakes` | core/src/usage.rs:64-76 | with any negative price some run has more dollars in the ledger than in the log |
| `UsageLedger.DollarsWithinLogIff` | core/src/usage.rs:64-194 | the dollars in the ledger never exceed the log's, in every run, exactly if no price is negative |
| `UsageLedger.UsageTables.RecordUsage` | core/src/usage.rs:138-194 | exactly the owner of the receipt is charged exactly this usage and the new totals come back, or zeros when they cannot be read; each error case and what it leaves behind |
| `Sessions.SplitLastOf` | core/src/user_session.rs:95-96 | the last bar separates payload and signature |
| `Sessions.PayloadFieldCount` | core/src/user_session.rs:83-103 | a payload has five fields exactly if tenant and key image hold no bar |
| `Sessions.VerifyOfIssue` | core/src/user_session.rs:81-119 | a minted token verifies, with its owner and epoch, exactly for its tenant, before it expires, if the tenant holds no bar and the owner is a key image |
| `Sessions.VerifySound` | core/src/user_session.rs:90-119 | whatever verifies is a payload followed by its own signature, with the five fields of the format |
| `Sessions.EpochRises` | core/src/user_session.rs:124-143 | an epoch never falls and rises exactly when a revocation finds the row |
| `Sessions.EpochZero` | core/src/user_session.rs:124-143 | the epoch is 0 exactly until the first revocation that finds the row |
| `Sessions.SessionLives` | core/src/user_session.rs:148-160 | over runs, with either read of the epoch failing or not: a token authenticates exactly while unexpired and, if the read at use succeeds, until the first revocation since it was minted that reaches the row (since the start, if the read at minting failed); if it fails, exactly if the token carries epoch 0 |
| `Sessions.RevocationEndsSessions` | core/src/user_session.rs:133-160 | after a revocation of an owner with a row an unexpired session is refused exactly if the epoch read succeeds or it was minted at a positive epoch |
| `Sessions.RevokedButUnread` | core/src/any_db.rs:578-590 | a revoked session of an owner with a row that authenticates because the epoch read fails |
| `Sessions.RevocationWithoutRow` | core/src/user_session.rs:124-143 | without a row the session goes on authenticating |
| `Sessions.CredentialTable.RevokeAll` | core/src/user_session.rs:135-143 | performs the revocation and returns the epoch as read back, 0 when that read fails; a failed update changes nothing |
| `Sessions.CredentialTable.Store` | core/src/main/user_credentials.rs:54-65 | an existing row is kept, no epoch changes, and a failed insert changes nothing |
| `CanonicalJson.SortedTells` | core/src/agent_checksum.rs:148-153 | collecting into a sorted map orders the keys and keeps every lookup |
| `CanonicalJson.AscendingFieldsUnique` | core/src/agent_checksum.rs:148-153 | a list sorted by key is fixed by its lookups |
| `CanonicalJson.CanonLookup` | core/src/agent_checksum.rs:146-158 | looking up in the canonical form gives the canonical form of what the key had |
| `CanonicalJson.CanonItems` | core/src/agent_checksum.rs:155 | array order is kept |
| `CanonicalJson.CanonEqualIff` | core/src/agent_checksum.rs:146-158 | canonical forms are equal exactly if the values differ in object key order only, at any depth |
| `CanonicalJson.CanonIdempotent` | core/src/agent_checksum.rs:146-158 | keys are sorted at every level, and canonicalizing again changes nothing |
| `JsonText.EscapeCancels` | core/src/agent_checksum.rs:136-137 | no string escape is the start of another |
| `JsonText.PrintCancels` | core/src/agent_checksum.rs:136-137 | printed JSON followed by an end determines the value and what follows |
| `JsonText.PrintInjective` | core/src/agent_checksum.rs:136-137 | the text determines the value |
| `AgentChecksum.PreimageEqualIff` | core/src/agent_checksum.rs:135-141 | hashed bytes are equal exactly if the types are equal and the inputs differ in key order only |
| `AgentChecksum.ComputeChecksum` | core/src/agent_checksum.rs:111-144 | unknown type, non-object and first missing or null required field in that order; otherwise the canonical text and the prefixed digest |
| `AgentChecksum.ChecksumEqualIff` | core/src/agent_checksum.rs:111-158 | without a hash collision, one checksum exactly for one type and inputs equal up to key order, which also miss the same fields |
| `SolanaMemo.EncodeCompactU16` | core/src/solana_anchor.rs:399-411 | the shifting loop computes the seven-bit groups, in 1, 2 or 3 bytes by size |
| `SolanaMemo.DecodeOfCompact` | core/src/solana_anchor.rs:399-411 | a reader gets the number and what follows |
| `SolanaMemo.CompactCancels` | core/src/solana_anchor.rs:399-411 | no encoding is the start of another |
| `SolanaMemo.CompactShortest` | core/src/solana_anchor.rs:399-411 | of all bytes that read as a number its encoding is the only shortest |
| `SolanaMemo.BuildLegacyMessage` | core/src/solana_anchor.rs:413-439 | the appends build the legacy message, the memo length wrapping at sixteen bits |
| `SolanaMemo.ParseOfMessage` | core/src/solana_anchor.rs:413-439 | a reader recovers signer, program, block hash and memo exactly for memos below 65536 bytes |
| `SolanaMemo.MessageInjective` | core/src/solana_anchor.rs:413-439 | the bytes determine all four parts for every memo |
| `SqlText.ReplaceAsciiCaseInsensitive` | core/src/sql_translate.rs:124-140 | the loop computes the leftmost replacement; an empty needle leaves the text alone |
| `SqlText.FindFirst` | core/src/sql_translate.rs:132 | the first occurrence, or none |
| `SqlText.NextMatch` | core/src/sql_translate.rs:132 | a search from an index on finds the next cut of the text |
| `SqlText.ReplaceJoins` | core/src/sql_translate.rs:124-140 | the result is the pieces of the input glued with the replacement |
| `SqlText.PiecesLeftmost` | core/src/sql_translate.rs:124-140 | no piece holds the needle and none could have been cut earlier |
| `SqlText.PiecesRebuild` | core/src/sql_translate.rs:124-140 | the pieces glued with the needle are the input up to case |
| `SqlText.NotCreated` | core/src/sql_translate.rs:124-140 | a pattern that cannot overlap the replacement is in the result only if it was in the input |
| `SqlText.NeedleGone` | core/src/sql_translate.rs:124-140 | if the needle cannot overlap the replacement, none is left behind |
| `SqlTranslate.RewritePlaceholders` | core/src/sql_translate.rs:35-64 | same length, and a change exactly at an unquoted question mark before a digit |
| `SqlTranslate.PlaceholdersSettle` | core/src/sql_translate.rs:35-64 | no placeholder is left in the result |
| `SqlTranslate.SettledUnchanged` | core/src/sql_translate.rs:35-64 | and then the scanner changes nothing |
| `SqlPipeline.RewriteInsertOr` | core/src/sql_translate.rs:74-97 | computes the specified rewrite of both `INSERT OR` forms |
| `SqlPipeline.RewriteFunctions` | core/src/sql_translate.rs:99-115 | the three function rewrites in order |
| `SqlPipeline.RewriteTransactions` | core/src/sql_translate.rs:117-122 | the two transaction rewrites in order |
| `SqlPipeline.TranslateStatement` | core/src/sql_translate.rs:22-33 | the four passes in order |
| `SqlPipeline.ResultSettled` | core/src/sql_translate.rs:22-140 | no pass creates a placeholder the scanner would match |
| `SqlPipeline.ResultNoCalls` | core/src/sql_translate.rs:22-140 | no rewritten function call is left or created |
| `SqlIdempotence.InsertOrSettles` | core/src/sql_translate.rs:74-97 | after the `INSERT OR` rewrite it does not fire again |
| `SqlIdempotence.ResultDoesNotFire` | core/src/sql_translate.rs:22-140 | nor does it fire on a whole result |
| `SqlIdempotence.ResultHasBegin` | core/src/sql_translate.rs:117-122 | a result holds `begin immediate` exactly if the statement repeated it in one of six ways |
| `SqlIdempotence.IdempotentIff` | core/src/sql_translate.rs:22-140 | translating twice is translating once exactly without such a repetition |
| `SqlIdempotence.IdempotentWithoutBeginImmediate` | core/src/sql_translate.rs:22-140 | in particular for every statement without `begin immediate` in any case |
| `SqlIdempotence.NotIdempotent` | core/src/sql_translate.rs:117-122 | `BEGIN IMMEDIATE IMMEDIATE` changes twice |
| `SqlQuotes.PlaceholdersSpare` | core/src/sql_translate.rs:35-64 | the placeholder scanner leaves quoted text alone |
| `SqlQuotes.ReplaceQuoted` | core/src/sql_translate.rs:124-140 | a replacement leaves all quoted text alone if no match overlaps it, and otherwise costs it letters that no other replacement gives back |
| `SqlQuotes.InsertOrQuoted` | core/src/sql_translate.rs:74-97 | so does the `INSERT OR` pass, unless it appends to a statement that ends inside a quote |
| `SqlQuotes.QuotedKeptIff` | core/src/sql_translate.rs:22-28 | quoted text comes out as it went in exactly if no pass finds a match that overlaps it and nothing is appended inside a quote |
| `SqlQuotes.QuotedDataChanges` | core/src/sql_translate.rs:99-112 | a literal that names a function is rewritten |
| `SqlData.TouchesKept` | core/src/sql_translate.rs:124-140 | a replacement neither makes nor unmakes a quoted match of a needle that cannot overlap it, or that only starts with it outside quotes |
| `SqlData.DataKeptIff` | core/src/sql_translate.rs:22-140 | for every statement: quoted text comes out as it went in exactly if the statement itself has no `ifnull(` and no `begin immediate` inside quotes and no `strftime` call, and does not end inside a quote when a conflict clause is appended |

## Left out

- Network, chain and calendar clients, HTTP routing and headers: only their outcomes are modelled, as inputs of the steps.
- Cryptographic hardness: hashes, MACs and group operations are functions; statements are about preimages and algebra.
- The Merkle tree: the root is an arbitrary function of the leaf sequence.
- The other checks on a DPoP proof (signature, method, URI, access-token hash): a history holds the proofs that passed them; only the freshness check has arithmetic that interacts with retention.
- Dpop.ReplayFreeIff: the expiry is an unbounded integer, since a proof whose expiry overflowed 64 bits would not pass the freshness check against a present-day clock.
- PopChallenges.TakenOnceIff: distinct ids stand for the random 128-bit ids the gateway draws; their distribution is not modelled.
- AnchorStore.ActionLog.ProofForReceipt: the tenant-scoped call; the all-tenants wildcard and the legacy leaf format of rows written before leaf version 2 are not modelled.
- Sessions.SessionLives: epochs are integers that fit 64 bits when minted; a counter that wraps is not modelled.
- Payments.ConsumePaymentAuthorization: of a row only tenant, agent, `jti`, amount, expiry and flag are kept; currency, merchant and reference are not read by the claim.
- SpendLedger.RunConserves: amounts are real numbers, so rounding of 64-bit floats is not modelled; `UsageLedger.DollarsWithinLogIff` likewise.
- UsageLedger.LedgerWithinLog: one price map for the whole run; a deployment that changes it between records is not modelled.
- Payloads.PayloadInjective: the framed domains of action receipts, action envelopes, aggregated statistics and agent tokens are not among its kinds; `CanonicalFields.EncodingInjective` covers their framing.
- Ring rules, budgets, licence checks and the storage modes of checksum inputs: case tables that would add only easy members.
- Database collation: text is ordered by code point, which agrees with byte order on both backends for the hex and ASCII keys used.
- SQL strings are sequences of characters; the source slices bytes, which agrees because every needle is ASCII.

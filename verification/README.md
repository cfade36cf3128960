# Event-sourced job lifecycle: a verified model

`@telaro/ars-solana` and its Python twin keep no job state. A job is whatever `replay` folds its event log
into; the store accepts an event only if the longer log still replays; an indexer feeds on-chain events into
that store. This project models those three layers in Dafny, together with the instruction encoder, the x402
gate and the conformance harness, and proves what holds of every log, every run and every feed.

`dafny verify dfyconfig.toml` checks everything.

## How it is laid out

| file | what it holds |
|---|---|
| `Events.dfy` | the events, sums over a log, one job's events in a log |
| `StateMachine.dfy` | `applyEvent`, `replay` as a fold and as the loop it is |
| `Language.dfy` | the accepted logs as words without a machine, the closed form of the fold, why a log is refused |
| `Histories.dfy` | how far the order of an accepted log is forced, release safety, the shape of closed jobs |
| `Progress.dfy` | rank, shortest ways to an end, the exact set of reachable jobs |
| `PythonState.dfy` | the second implementation, and its agreement with the first |
| `EventStore.dfy` | the store as a value, its invariant, its refinement of a map of current jobs |
| `StoreRuns.dfy` | non-interference, schedules, the store's language, recovery, redelivery, key order, conservation |
| `InMemoryEventStore.dfy` | the store as an object: a map of lists that is updated and copied from |
| `Clients.dfy` | clients that append, take copies and change them, interleaved in any way |
| `Bytes.dfy`, `Ingest.dfy` | hexadecimal text, the translation of on-chain events and its exact image |
| `IngestRuns.dfy`, `Rulings.dfy` | the indexer's loop, what any feed can and cannot do, and which claim outcome decides a job |
| `Binding.dfy` | little-endian instruction data, its reader, exactly when the encoding is injective |
| `X402.dfy`, `X402Documented.dfy` | the two signer loops, the payer, the gate; the payer as documented |
| `Conformance.dfy`, `Corpus.dfy`, `ConformanceCli.dfy`, `HttpPass.dfy` | the report, the self-test, the shipped vectors, both transports, what a pass binds, the certificate |

A call that throws or raises is modelled as a `Result` whose error names the place that threw. A run is a
sequence of calls: `append` contains no `await`, so concurrent calls take effect one whole call after another,
in some order, and every statement over runs is a statement over all those orders.

## Where code and documentation differ

The model follows the code.

- `extract_payer` documents its payer twice: its docstring and error message speak of a signed SPL transfer and
  of an error without one, its comment of the first signer that an instruction also references. The code takes
  the first signer, whatever the instructions are. `X402Documented.PayersAgreeIff` says exactly when the code
  meets either document; `FeePayerIsCharged` is a transfer by the second signer, where it meets neither, and
  `MemoIsCharged` a memo of the first signer, where it meets the comment and not the docstring.
- The versioned signer loop can run off the key list where the legacy loop cannot. `X402.VersionedLoop` states
  exactly when (`KeyMissing`): a non-blank required signature at a position without a key. `X402.LoopsDiverge`
  is such a transaction.
- The view-bond loop of `run_self_test` and of the Python transport has no `try`, so what escapes there ends the
  run with no report. The contracts say exactly when; `Corpus.RunShippedSelfTest` says that on the shipped vectors
  it never happens.
- The protocol over HTTP demands status 400 for an illegal log; the code takes any 4xx. `HttpPass.PassVersusProtocol`
  states the difference exactly, and `HttpPass.NotFoundPasses` is an endpoint that answers 404 and passes.
- Passing the corpus is taken as conformance. `ConformanceCli.PassBindsLogIff`, `PassBindsViewBondIff`,
  `HttpPass.HttpPassBindsLogIff` and `HttpPassBindsViewBondIff` say exactly what a pass establishes: agreement
  with the package on the vectors of the suite and on nothing else.
- The shipped illegal vector named after a terminal CLOSED job in fact continues a REJECTED one
  (`Corpus.TerminalVectorIsRejected`).
- Nothing makes `at` increase, keeps a release positive or below the exposure, or ties a resolution to a
  dispute. `Progress.ReachableExactly` shows that the one thing enforced about a job's numbers is that
  nothing is released before it executes.

## Model

| member | source | states |
|---|---|---|
| `StateMachine.ReplayLoop` | src/state.ts:148-157 | the loop that stops at the first illegal event computes the fold, for every log including the empty one |
| `StateMachine.RejectionSticks` | src/state.ts:150-152 | a rejected beginning decides the whole log: the error of the first illegal event is the result |
| `Language.ExactLanguage` | src/state.ts:71-157 | a log replays if and only if it is non-empty, speaks of one job, and is a prefix of Opened Started Declined or of Opened Started Approved Released+ Evidence Dispute? Closing |
| `Language.FoldHasClosedForm` | src/state.ts:78-156 | the derived job is the first event's identity fields, the state given by the last event alone, the sum of the releases, and the last event's time |
| `Language.RefusalIsDiagnosed` | src/state.ts:72-103 | a refused log has a longest legal prefix, and the kind of error is a function of that prefix and the next event |
| `Histories.NoSecondOfAType` | src/state.ts:118-143 | in an accepted log no event type other than a release occurs twice; a verdict is not followed by another, of either sign |
| `Histories.OrderIsForced` | src/state.ts:118-143 | two accepted permutations of one another agree at every position except inside the block of releases |
| `Histories.OrderInsensitive` | src/state.ts:105-157 | their jobs differ at most in `lastEventAt`, and only if the job is executing and the last releases have different times |
| `Histories.ReleaseSafety` | src/state.ts:122-132 | every release in an accepted log comes after a third event that approves |
| `Histories.NothingReleasedBefore` | src/state.ts:122-132 | a job that is awaiting, under review, rejected or releasable has released nothing and its log holds no release |
| `Histories.ClosedHistory` | src/state.ts:126-143 | a closed log has all its releases, at least one, in one block right before its only evidence, and length 5 or 6 plus their number, 6 exactly if it was disputed |
| `Histories.AtMostSixOthers` | src/state.ts:118-143 | no accepted log has more than six events that are not releases |
| `Progress.NoWayBack` | src/state.ts:118-157 | between any two points of an accepted log the state strictly rises in rank, or it is EXECUTING at both and every event between is a release |
| `Progress.ContinueIsReplay` | src/state.ts:148-157 | taking a derived job on event by event is replaying the longer log, errors included |
| `Progress.EndIsReachable` | src/state.ts:34-42 | every job is taken to a terminal state by the given events, at most three, their number depending on its state |
| `Progress.NoShorterWay` | src/state.ts:34-42 | no shorter list of events reaches a terminal state |
| `Progress.TerminalIffStuck` | src/state.ts:34-42 | a job is terminal if and only if no event whatsoever is accepted |
| `Progress.ReachableExactly` | src/state.ts:71-157 | the jobs some log derives are exactly those with nothing released before they execute |
| `PythonState.PyReplayLoop` | python/src/telaro_ars/state.py:146-153 | the Python loop computes its left fold |
| `PythonState.ImplementationsAgree` | python/src/telaro_ars/state.py:66-153 | both implementations give the same job or the same kind of rejection on every log, and accept the same language |
| `EventStore.AppendIffReplay` | src/store.ts:43-50 | an append succeeds if and only if the stored log and the event replay together, and fails with that replay's error |
| `EventStore.StepIsValid` | src/store.ts:43-50 | every call, refused or not, keeps keys distinct and every stored log non-empty, replayable and of its own job |
| `EventStore.RefusalInStore` | src/store.ts:43-50 | the store never refuses for a foreign job id or an empty log, and says unknown job exactly for an id without a log |
| `EventStore.RunRefines` | src/store.ts:43-59 | over any run the log-keeping store is the map of current jobs stepped one event at a time, and both give the same answer to every event, errors included |
| `StoreRuns.NonInterference` | src/store.ts:43-59 | in any run, the log, the derived job and the answers of one job are those of a run of its own events alone |
| `StoreRuns.SchedulesAgree` | src/store.ts:43-63 | two schedules with the same events per job, in the same order per job, end in the same logs and jobs and the same set of ids, with the same answers |
| `StoreRuns.NeighboursCommute` | src/store.ts:43-50 | neighbouring appends to different jobs can be exchanged anywhere in a run: same logs, same answers to every job |
| `StoreRuns.LogHoldsAccepted` | src/store.ts:43-54 | after any run a log is the old log followed by exactly the job's accepted events, in order |
| `StoreRuns.StoreLanguage` | src/store.ts:43-50 | an empty store takes every call of a sequence if and only if the events of each job, on their own, are a lifecycle: the store's language is the shuffle of lifecycles |
| `StoreRuns.AcceptedRebuilds` | src/store.ts:43-50 | running the accepted events alone rebuilds the same store, key order included, with no refusal |
| `StoreRuns.ValidExactlyReachable` | src/store.ts:40-50 | the invariant is exact: a store satisfies it if and only if some run of the empty store produces it |
| `StoreRuns.IdsInOpeningOrder` | src/store.ts:61-63 | the ids are those of the accepted openings, in order of acceptance |
| `StoreRuns.NoIdTwice` | src/store.ts:61-63 | no id is listed twice |
| `StoreRuns.RedeliveryIff` | src/store.ts:43-50 | after an event is accepted, an event of its type for its job is accepted at a later point of any run exactly if it is a release and the job is then executing; a refusal changes nothing |
| `StoreRuns.PrincipalIsConserved` | src/store.ts:43-59 | over any run, principal released summed over all jobs grows by exactly the amounts of the accepted releases |
| `StoreRuns.PrincipalPerJob` | src/store.ts:56-59 | and per job it is the sum over its log, which is the old sum plus its accepted releases |
| `InMemoryEventStores.InMemoryEventStore.constructor` | src/store.ts:40-41 | a new store is valid and empty |
| `InMemoryEventStores.InMemoryEventStore.ValidateAndStore` | src/store.ts:43-50 | replay, try, store: the object takes the specified step, a refusal leaves both fields as they were, and every list it keeps is one it had or a new one |
| `InMemoryEventStores.InMemoryEventStore.Append` | src/store.ts:43-50 | on a valid store an event is taken exactly if the longer log is a lifecycle, is added at the end, and is otherwise refused with the diagnosed error |
| `InMemoryEventStores.InMemoryEventStore.Log` | src/store.ts:52-54 | a fresh list with the job's log, empty for an unknown job |
| `InMemoryEventStores.InMemoryEventStore.Job` | src/store.ts:56-59 | never throws; null exactly for a job without events, else the closed form of its log |
| `InMemoryEventStores.InMemoryEventStore.JobIds` | src/store.ts:61-63 | a fresh list of the ids in insertion order |
| `InMemoryEventStores.AppendAll` | src/store.ts:43-50 | a run of calls on the object ends in the value the specified run ends in |
| `Clients.RunClient` | src/store.ts:43-54 | any client, any interleaving of appends, copies and arbitrary changes to any earlier copy, overwriting, pushing or cutting: the store ends where the appended events alone take it, and each copy holds what was returned or what the client last made of it |
| `Clients.UnwrittenCopyStays` | src/store.ts:52-54 | a copy the client does not change is, for ever, the log at the moment it was taken |
| `Clients.EditedCopyIsTheClients` | src/store.ts:52-54 | and a copy it changes stays as the client left it, whatever is appended later |
| `Bytes.UnhexOfHex` | src/ingest.ts:36 | hex text is an even run of lower-case digits and reads back as its bytes |
| `Bytes.HexOfUnhex` | src/ingest.ts:36 | every even run of lower-case digits is the hex text of some bytes |
| `Bytes.HexIsInjective` | src/ingest.ts:36 | different bytes have different hex text |
| `Bytes.HexAt` | src/ingest.ts:36 | position by position: two lower-case digits per byte, high half first |
| `Ingest.ImageOfTranslation` | src/ingest.ts:50-113 | for whatever hashes, claim texts and amounts a chain emits, the events its payloads translate into are exactly: evidence whose id and hash are the same text of an emitted hash, disputes with an emitted claim text, releases of an emitted amount and non-clean closings, the last three with a non-empty id |
| `Ingest.TranslationRoutes` | src/ingest.ts:54-113 | which payloads translate, which job each event is about, and which payload fields it carries |
| `Ingest.ActionsKeepApart` | src/ingest.ts:55-66 | recorded actions concern the same job if and only if their hashes are equal, whatever the contexts say |
| `IngestRuns.IngestLoop` | src/ingest.ts:4-8 | the indexer's loop over the object computes the specified run of the translated feed |
| `IngestRuns.FeedsAreHarmless` | src/ingest.ts:50-113 | any feed keeps the ids and the jobs before approval or past their end, only extends other logs, only with events the chain can carry, and with at most one closing per job |
| `IngestRuns.ChainClosesIff` | src/ingest.ts:54-98 | some feed of what a chain emits closes an open job if and only if its id is non-empty and it awaits a claim, or its id is the text of an emitted hash and it is executing, or releasable with some amount to draw |
| `IngestRuns.ClosableOnSolana` | src/ingest.ts:54-98 | for 32-byte hashes and 64-bit amounts: the id is the text of 32 bytes, 64 lower-case digits, unless a claim is already awaited |
| `IngestRuns.ReleasedNeverFalls` | src/ingest.ts:100-108 | if the chain draws no negative amounts, no feed lowers what any job has released |
| `Rulings.FirstRulingDecides` | src/ingest.ts:43-98 | a feed closes an open job exactly if a resolved claim or ruling reaches it while it awaits one; that position is unique, and its code alone decides who is cleared, the agent exactly for claim statuses 3 and 7 and ruling 1, whatever else is resolved or ruled before or after |
| `Binding.LeRoundTrip` | python/src/telaro_ars/binding.py:268-272 | little-endian bytes sum back to the value |
| `Binding.LeCanonical` | python/src/telaro_ars/binding.py:268-272 | every byte string is the little-endian form of its own sum, which fits its width |
| `Binding.LeDigit` | python/src/telaro_ars/binding.py:268-272 | byte i is digit i of the value in base 256, lowest first |
| `Binding.Layouts` | python/src/telaro_ars/binding.py:235-292 | each builder writes its own discriminator and then its arguments at fixed offsets |
| `Binding.RefusedIffOutOfRange` | python/src/telaro_ars/binding.py:235-292 | a builder raises exactly when an argument does not fit its width, and `view_bond` reports the score first |
| `Binding.DecodeOfEncode` | python/src/telaro_ars/binding.py:239-292 | the data of all five builders reads back as the instruction and its arguments |
| `Binding.EncodeOfDecode` | python/src/telaro_ars/binding.py:239-292 | data that can be read is exactly what the builder writes for what was read |
| `Binding.InjectiveIffUnambiguous` | python/src/telaro_ars/binding.py:319-387 | different calls have different data if and only if the three u64 instructions have different discriminators |
| `X402.LegacyLoop` | python/src/telaro_ars/x402.py:160-170 | the legacy loop collects the keys of the required signers that signed, in order |
| `X402.VersionedLoop` | python/src/telaro_ars/x402.py:174-186 | the versioned loop collects the same list, and fails exactly if a signature that counts has no key, which cannot be if the required signers do not outnumber the keys |
| `X402.LoopsDiverge` | python/src/telaro_ars/x402.py:160-186 | a transaction on which the legacy loop finds no signer and the versioned one fails |
| `X402.TryParseTx` | python/src/telaro_ars/x402.py:158-186 | the legacy reading is used if there is one, the versioned one otherwise |
| `X402.ExtractPayer` | python/src/telaro_ars/x402.py:113-149 | returns a key exactly if it is the key of the first signer, UNSIGNED_PAYER exactly if no position with a key is signed, MALFORMED_PAYMENT exactly if nothing could be read, never NO_TRANSFER |
| `X402.PayerIsFirstSigner` | python/src/telaro_ars/x402.py:113-149 | the same for the function the gate is specified with, from the least signed position |
| `X402.PayerInBytes` | python/src/telaro_ars/x402.py:113-186 | for the transaction the decoders yield, legacy first, versioned otherwise: the payer is the key at the least required position whose signature is not 64 zero bytes, and UNSIGNED_PAYER exactly if there is none |
| `X402.UnreadableInBytes` | python/src/telaro_ars/x402.py:113-186 | MALFORMED_PAYMENT exactly without base64, without either form of transaction, or if the versioned one has a required non-zero signature past its keys |
| `X402.SignersExactly` | python/src/telaro_ars/x402.py:160-186 | the list of signers holds the keys of exactly the required positions with a signature other than 64 zero bytes, in order |
| `X402Documented.PayersAgreeIff` | python/src/telaro_ars/x402.py:114-149 | for either documented kind of instruction, and any other: code and documentation agree exactly if there is no signer or an instruction of that kind references the first one; the documented error is NO_TRANSFER exactly if there are signers and no such instruction references any; where they differ the code pays from the first signer |
| `X402Documented.TransferImpliesInstruction` | python/src/telaro_ars/x402.py:114-149 | where the code agrees with the docstring it agrees with the comment |
| `X402Documented.FeePayerIsCharged` | python/src/telaro_ars/x402.py:139-145 | a transfer by the second signer: the code charges the first, both documents the second |
| `X402Documented.MemoIsCharged` | python/src/telaro_ars/x402.py:117-118 | a memo that references the only payer: the code and the comment charge it, the docstring promises an error |
| `X402.ApplyGate` | python/src/telaro_ars/x402.py:189-259 | passes, refuses and rejects under exact conditions on the payment, the lookup and the policy, each code included |
| `X402.PassIff` | python/src/telaro_ars/x402.py:189-259 | the gate opens exactly for a payment whose first signer is registered, not frozen, and meets both minima |
| `X402.FailIff` | python/src/telaro_ars/x402.py:232-257 | each refusal code exactly if the payer is the first signer, that check fails and the checks before it do not, score before bond |
| `X402.GateReadsEnvelope` | python/src/telaro_ars/x402.py:211-230 | what the envelope carries is what the payer is taken from: its error makes the payment unusable, its payer is judged; an envelope without a transaction is malformed |
| `X402.JudgedByNumbers` | python/src/telaro_ars/x402.py:232-259 | the judgement in numbers, a missing score or bond being 0: frozen first, then a score below the minimum, then a bond below it, else a pass |
| `X402.GateChargesFirstSigner` | python/src/telaro_ars/x402.py:189-259 | from the header to the signature bytes: the holder of the first required key with a non-zero signature is the one looked up and judged |
| `X402.LaxerPolicyPasses` | python/src/telaro_ars/x402.py:243-259 | lowering either minimum never closes the gate nor changes the payer |
| `X402.StatusTellsFault` | python/src/telaro_ars/x402.py:262-268 | a closed gate is 402 exactly without a paying signer, 502 exactly if the lookup raised, 403 otherwise |
| `X402.StatusTable` | python/src/telaro_ars/x402.py:262-268 | the status of each of the nine codes |
| `Conformance.TallyIsPartition` | python/src/telaro_ars/conformance.py:251-264 | passes and failures add up to the number of vectors, and the failures are the ordered positions that do not match |
| `Conformance.ConformanceReport.TalliesSay` | python/src/telaro_ars/conformance.py:251-264 | in a report of a run each passed count is the number of matches of its own list and each failure list the positions without one |
| `Conformance.SelfTestStates` | python/src/telaro_ars/conformance.py:287-301 | the first loop tallies every state vector once |
| `Conformance.SelfTestIllegal` | python/src/telaro_ars/conformance.py:303-312 | the second loop tallies every illegal vector once |
| `Conformance.SelfTestViewBonds` | python/src/telaro_ars/conformance.py:314-329 | the third loop tallies every view-bond vector once, unless one does not fit, which ends the run |
| `Conformance.RunSelfTest` | python/src/telaro_ars/conformance.py:281-331 | a report unless some view-bond vector does not fit, and then it is fine exactly if every vector matches |
| `Conformance.SelfTestPassesIff` | python/src/telaro_ars/conformance.py:281-331 | every vector matches if and only if the corpus is coherent: state vectors are lifecycles that end as stated, illegal ones are none, and each hex text reads as its arguments |
| `Corpus.RunShippedSelfTest` | python/src/telaro_ars/conformance.py:281-331 | on the shipped vectors the self-test always gives a report, and it is 5, 3 and 4 passed |
| `Corpus.TerminalVectorIsRejected` | python/src/telaro_ars/conformance.py:175-187 | the third illegal vector is refused as terminal after a rejection |
| `ConformanceCli.RunPythonTransport` | python/src/telaro_ars/conformance_cli.py:191-237 | whatever a target answers, call by call: no report exactly if something escapes a loop, an exception no clause catches in the first two or any in the third, else every vector tallied once and fine exactly if all match |
| `ConformanceCli.CallMatchesMean` | python/src/telaro_ars/conformance_cli.py:191-237 | what a call must be to match: the state with its amount, or with none where 0 is expected; a transition error; data with the expected hex text |
| `ConformanceCli.TransportOnReference` | python/src/telaro_ars/conformance_cli.py:191-237 | against the package itself the transport tallies what the self-test tallies, and stops on the same corpora |
| `ConformanceCli.PassBindsLogIff` | python/src/telaro_ars/conformance_cli.py:191-214 | for every suite the package passes and every log: all passing targets answer as the package does on that log if and only if the log occurs in the suite |
| `ConformanceCli.PassBindsViewBondIff` | python/src/telaro_ars/conformance_cli.py:216-236 | for every such suite and every pair of arguments: all passing targets encode as the package does if and only if the pair occurs in the suite |
| `ConformanceCli.PassIffAgrees` | python/src/telaro_ars/conformance_cli.py:191-237 | for every suite the package passes: a target passes if and only if it answers, as read, what the package answers on every vector |
| `ConformanceCli.ShippedBindsIff` | python/src/telaro_ars/conformance.py:74-243 | so the shipped corpus binds a passing target on its own logs and calls and nowhere else |
| `ConformanceCli.RunHttpTransport` | python/src/telaro_ars/conformance_cli.py:264-319 | whatever an endpoint answers there is a report, every vector tallied once and fine exactly if all match |
| `ConformanceCli.ReplyMatchesMean` | python/src/telaro_ars/conformance_cli.py:267-317 | what a reply must be to match: status 200 with state and amount; any 4xx with any body for an illegal log; status 200 with the expected hex text |
| `HttpPass.HttpPassBindsLogIff` | python/src/telaro_ars/conformance_cli.py:245-299 | for every suite the package passes and every log: all passing endpoints are heard to answer as the package does if and only if the log occurs in the suite |
| `HttpPass.HttpPassBindsViewBondIff` | python/src/telaro_ars/conformance_cli.py:301-317 | and for every pair of arguments: all passing endpoints answer as the package does if and only if the pair occurs in the suite |
| `HttpPass.HttpPassIffAgrees` | python/src/telaro_ars/conformance_cli.py:267-317 | for every such suite: an endpoint passes if and only if it is heard to answer what the package answers on every vector |
| `HttpPass.PassVersusProtocol` | python/src/telaro_ars/conformance_cli.py:248-255 | a transcript follows the documented protocol exactly if it passes and no illegal log is answered with a 4xx other than 400 |
| `HttpPass.NotFoundPasses` | python/src/telaro_ars/conformance_cli.py:291-293 | an endpoint that answers 404 to illegal logs passes every suite the package passes, against the protocol |
| `ConformanceCli.CertificateIsTruthful` | python/src/telaro_ars/conformance_cli.py:84-132 | a certificate names the subject, transport and time it was issued for, counts the matches and the vectors of each list, and passes exactly if the report is fine, that is, if every vector matched |

## Left out

- Events are values: the store keeps references to the event objects a caller passed in, so a caller that
  mutates such an object, not the list around it, is not modelled.
- `at` is an integer; a fractional or NaN JavaScript number is only ever copied, and is not modelled.
- Error messages: an error is the place that raised it, and a failure in a report is the position of its vector.
- Hashing, signing, base58, base64, JSON and transaction deserialisation: parameters of the model, as are the
  profile lookup, the network's answers and the discriminators, of which only the length of eight is assumed.
- Gate inputs that are not well-typed: an envelope that is not an object, a score that is not a number.
- The on-chain reader of instruction data is not in the repository: `Binding.Decode` is a reference definition
  of one.
- Account lists of the instructions, the intents, PDA derivation, `src/binding.ts`, `src/client.ts`, both
  settlement layers and `abc.py`: thin delegation or foreign code.
- The rules that the on-chain program enforces and this repository only describes: leverage, cooldown, conservation of bond, score.
- Command line, file output, fingerprint and signature of certificates.
- In `ConformanceCli.PassBindsLogIff` and `HttpPass.HttpPassBindsLogIff` a target answers one log the same way each time; the transports have no such
  limit, their answers are free at every position.

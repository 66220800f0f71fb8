# Vizier, modelled and proved

Vizier decides whether an AI agent may perform an action. This project models the parts of it whose
correctness is not visible in one function body: the canonical text behind every hash and signature,
the grants and covenants signed over it, the protocols that must hold over whole runs (loop killers,
human reviews, quorums, quotas), and three calculations with sharp edges (the OFAC 50 % rule, the
wallet-history scan, the Luhn check). The command is `dafny verify dfyconfig.toml`.

## How to read it

- **Text and JSON.** `CodeUnits` has JavaScript strings as UTF-16 code units; `Json` has the values a
  printer can meet, and `Same`: equality up to the order of object keys (sections 3.2.2 and 3.2.3 of
  RFC 8785). `CanonicalPrinter` prints, `JsonParser` is `JSON.parse`, and the main result says two
  accepted values have one text exactly when they are `Same`. `CanonicalForm` says what that text is without its
  printer: the shortest JSON text of the value, with its keys in order. `ObjectGraph` and `JsonComplexity` have
  the guard in front of the printer, over heaps with sharing and cycles.
- **Signatures.** `Base64Url` (section 5 of RFC 4648), `Utf8` and `CompactJws` (section 7.1 of RFC 7515)
  end in exact round trips of tokens; `WireFormat` writes tokens and bytes out against the tables of their
  standards. `Grants` and `PrincipalKeys` build delegation grants on them;
  `Policies`, `CovenantRecords`, `Covenants`, `CovenantRuns`, `CovenantTokens` and `ReceiptFields` the covenant life cycle.
- **Protocols.** Each has a step function on states, a class whose methods change fields in place and
  are proved to perform exactly that step, and lemmas over every run: `EdgeBreaker` / `EdgeBreakerRuns`,
  `PythonBreaker`, `ReviewStore` / `ReviewProtocol` / `ReviewAnswers`, `Quorum` / `QuorumCallers` / `DualControl`, `ApiKeys`. Runs and logs
  are lists, newest first.
- **Calculations.** `Sanctions50`, `WalletHistory` / `WalletScan` and `Luhn` have the loops, against declarative definitions.

What is assumed appears as a parameter or a named hypothesis, always of one suite, token or answer:

- SHA-256 is injective (`CovenantTokens.HashesCanonicalText`);
- signatures are 64 bytes and verify for the pair that made them (`CompactJws.Correct`), and that of a minted
  grant verifies under no other key registered for its issuer (`CompactJws.Separates`);
- the signature on the token presented is not forged (`Grants.PresentedWasMinted`, `CovenantTokens.Unforgeable`);
- the authority schema accepts its own output again (`Grants.Stable`);
- an RPC provider below its answer cap is complete (`WalletHistory.Faithful`).

The lemmas `CorrectSuiteExists`, `MintedTokenWasMinted`, `HashingWorldExists` and `StableSchemaExists` show that
the first four can be met.

## Where the code does less than it seems to

Each of these is a lemma with a concrete input or a whole failing family, beside the exact condition
under which the code does what is expected of it.

- Loop detection forgets calls that a narrower window in between has pruned (`NarrowerWindowForgets`). It agrees
  with the full log exactly when every pruning call still saw what the reader asks for (`LoopVerdictsAgreeExactly`).
- A call with a shorter cool-off runs on into an earlier trip and may overwrite it with a shorter record
  (`ShorterCoolOffForgets`); when a session is cooling off is exact (`CoolingExactly`).
- A reset ends with its epoch record, a day later. It holds for good exactly when the newest counters it leaves
  behind expire before that (`ResetHoldsExactly`); cool-offs and windows of at most half a day are enough
  (`OldCountersAreDead`), and one longer call may bring its counters back (`LongCoolOffRevives`).
- The Python breaker keeps 100 calls, so limits above 101 never trip on repeats (`LargerLimitsDisagree`). It agrees
  with the full log exactly for the other limits, and for those its session budget or window keeps out of reach
  (`DequeAgreesExactly`).
- The quota of a month is refilled when a call that read the clock before midnight updates after one that read it
  later (`ReturningMonthRefills`, `QuotaExceededAcrossMidnight`). It is kept exactly when the attempts for the month
  follow each other or are no more than the quota (`QuotaKeptExactly`).
- Each vote cuts the stored lifetime of a proposal to whole seconds and at least a minute, so the end of its time is
  lost exactly if more than a minute and no whole seconds were left (`ShownToTheEnd`), and an approval may be read
  up to a minute past its expiry (`VotedProposalShown`), which the endpoint and the proxy turn down.
- A principal id registered with surrounding spaces is accepted and can never be matched
  (`PaddedPrincipalIsUnreachable`).
- A covenant authorization passes no grant on, so a deployment that requires signed grants allows none
  (`AllowedExactly`).
- Swapped adjacent 0 and 9 pass the Luhn check (`SwapDetected`).

## Model

| member | source | states |
|---|---|---|
| CanonicalPrinter.SameValuesPrintAlike | src/core/receipts.ts:20-37 | values equal up to key order print the same text, whatever the insertion order of keys |
| CanonicalPrinter.NormalizeKeepsLimits | src/core/receipts.ts:15-18 | sorting keys neither passes nor fails the depth and node limits |
| CanonicalPrinter.JwsPrintIsPrintOfStrip | src/crypto/jws.ts:61-85 | the JWS printer, which skips undefined properties, prints what the receipt printer prints of the value without them |
| JsonParser.ParsePrint | src/core/receipts.ts:20-37 | parsing printed text followed by any delimiter gives the value back with its keys sorted, and leaves the delimiter |
| JsonParser.ParseCanonical | src/core/receipts.ts:15-37 | JSON.parse after canonicalize sorts keys and changes nothing else |
| CanonicalForm.CanonicalTextIsShortest | src/core/receipts.ts:15-37 | no well-paired JSON text of the value, with its keys in any order, is shorter than its canonical text |
| CanonicalForm.CanonicalKeysInOrder | src/core/receipts.ts:28-36 | at every level of the canonical text, keys stand in the order of their first differing unit, a key before its extensions |
| CodeUnits.LessIsBefore | src/core/receipts.ts:30-33 | the order of keys is exactly that of the first differing UTF-16 unit |
| CanonicalForm.ShortestString | src/core/receipts.ts:20-23 | a printed string is well paired with lower-case escapes, and the only text of that string as short with lower-case escapes (section 3.2.2.2 of RFC 8785) |
| CanonicalForm.ShortEscape | src/core/receipts.ts:20-23 | the two-unit escapes, written out |
| CanonicalForm.LongEscape | src/core/receipts.ts:20-23 | other control characters and lone surrogates are written \\u and four lower-case hexadecimal digits |
| CanonicalForm.Copied | src/core/receipts.ts:20-23 | every other unit is copied |
| CanonicalForm.TwoItems | src/core/receipts.ts:27-28 | brackets and commas of an array, written out |
| CanonicalForm.TwoMembers | src/core/receipts.ts:29-36 | braces, colons and commas of an object, written out, with the smaller key first |
| CanonicalForm.Words | src/core/receipts.ts:20-26 | null, true, false, the empty array and the empty object, written out |
| JsonParser.CanonicalTextIsInjective | src/core/receipts.ts:15-37 | two accepted values have the same canonical text exactly when they are equal up to key order |
| JsonParser.PrintIsSelfDelimiting | src/core/receipts.ts:20-37 | no printed value followed by a delimiter can be read as another value followed by another delimiter |
| JsonParser.JwsTextIsInjective | src/crypto/jws.ts:61-85 | JWS payload texts are equal exactly for values equal up to key order and undefined properties |
| ObjectGraph.UnfoldingIsUnique | src/core/json-complexity.ts:15-63 | an object graph with sharing unfolds to at most one tree |
| ObjectGraph.CycleHasNoUnfolding | src/core/json-complexity.ts:45-55 | a graph with a cycle has no finite unfolding |
| JsonComplexity.AssertJsonComplexity | src/core/json-complexity.ts:15-63 | the explicit-stack search ends, accepts exactly the graphs whose unfolding is finite and within both limits, and reports a cycle only for a real one |
| JsonComplexity.AssertProxyJsonComplexity | packages/mcp-proxy/src/index.ts:295-316 | the marker-free search of the proxy accepts exactly the same graphs at the same limits |
| JsonComplexity.CanonicalizeGraph | src/core/receipts.ts:15-18 | guard and printer together accept exactly the graphs with a serializable unfolding in limits, and print that unfolding |
| Base64Url.DecodeEncode | src/crypto/jws.ts:87-110 | decoding undoes encoding for every byte string |
| Base64Url.EncodeDecode | src/crypto/jws.ts:98-110 | exactly which texts decode, and that re-encoding gives the text back exactly when its left-over bits are zero |
| Base64Url.Base64urlEncode | src/crypto/jws.ts:87-96 | the chunked loop produces the encoding of its bytes |
| Base64Url.Base64urlDecode | src/crypto/jws.ts:98-110 | the copying loop fills a fresh buffer with exactly the bytes that encode to the text, and fails exactly on foreign characters and impossible lengths |
| Utf8.Utf8RoundTrip | src/crypto/jws.ts:148-153 | UTF-8 encoding loses nothing of a text without lone surrogates |
| WireFormat.FirstEncoded | src/crypto/jws.ts:148-153 | unit by unit, pair by pair, a text is encoded in the bytes that section 3 of RFC 3629 gives its code points; lone surrogates become U+FFFD |
| WireFormat.GroupEncoded | src/crypto/jws.ts:87-96 | three bytes are four characters with the same 24 bits |
| WireFormat.TwoBytesEncoded | src/crypto/jws.ts:87-96 | two bytes at the end are three characters, zero-filled and unpadded |
| WireFormat.ByteEncoded | src/crypto/jws.ts:87-96 | one byte at the end is two characters, zero-filled and unpadded |
| WireFormat.TokenSpelled | src/crypto/jws.ts:137-168 | a token is issued exactly for a named key and a serializable payload, and is header, payload and signature in base64url with dots between, the header written out |
| CompactJws.SignThenDecode | src/crypto/jws.ts:137-168 | for every suite with 64-byte signatures that verify what they sign, decoding a signed token gives back its header, its payload up to key order, its signing input and its signature |
| CompactJws.SigningInputInjective | src/crypto/jws.ts:152-156 | a signing input determines both of its halves |
| CompactJws.SignThenVerify | src/crypto/jws.ts:170-223 | for every such suite, a signed token verifies against an expected payload and type exactly when these are its own, up to key order |
| CompactJws.VerifiedNames | src/crypto/jws.ts:170-223 | a token that verifies on bytes signed for some payload has that payload, key name and type, however it was put together |
| Grants.MintThenVerify | src/core/grants.ts:172-281 | a minted grant, whose signature passes under no other key of its issuer, verifies exactly when it fits the size limits, its key is registered, the floored clock is in its lifetime with the skew, and principal, agent, authority up to key order and any compared audience match; the result carries its claims |
| Grants.MintedGrantAnswer | src/core/grants.ts:172-281 | what the verifier answers for a minted grant: the first thing wrong with the principal, the key, its signature, the scope or the authority |
| Grants.ScopeAnswer | src/core/grants.ts:215-258 | which check of times, audience, principal and agent is the first to fail, with 60 s of skew |
| Grants.ExactAuthorityBinding | src/core/grants.ts:172-281 | any token that verifies, however it was put together, carries the claims of a mint call by that principal for this agent with this authority; only the presented signature is assumed not forged |
| Grants.MintedTokenWasMinted | src/core/grants.ts:305-334 | the tokens that mint calls return meet that assumption |
| Grants.MintedShape | src/core/grants.ts:305-334 | a mint call that succeeds signs validated claims with a positive lifetime of at most a year |
| Grants.MintSucceedsExactly | src/core/grants.ts:305-345 | a mint call succeeds exactly for a lifetime of up to a year, names of 1 to 256 units once trimmed, dates up to 4102444800, an accepted and serializable authority and a named key, and signs exactly those claims |
| Grants.MintFields | src/core/grants.ts:305-334 | the claims a mint call hands to the schema, by name |
| Grants.StrictPayload | src/core/grants.ts:193-197 | a payload with any property beyond the eight claims is refused |
| Grants.ClaimNames | src/core/grants.ts:27-60 | the names of the claims and the token type |
| PrincipalKeys.FullKidSetIsDistinct | src/core/grants.ts:135-139 | comparing the size of the set of ids with the number of keys detects exactly the duplicate ids |
| PrincipalKeys.ParsePrincipalKeyRegistry | src/core/grants.ts:93-143 | the nested loops build the registry entry by entry and throw exactly for unreadable text, bad ids, missing, malformed or duplicate keys |
| PrincipalKeys.JwkReadExactly | src/crypto/jws.ts:236-255 | exactly the P-256 signing keys in public form with a key id are read, each as the key of its id and coordinates |
| PrincipalKeys.RegistryHolds | src/core/grants.ts:113-142 | the registry holds, for every principal of the object, exactly the keys listed for it |
| PrincipalKeys.RegisteredExactlyWhenListed | src/core/grants.ts:126-140 | a minting key is the one grant verification finds exactly when its public half is among its principal's keys |
| CodeUnits.TrimExactly | src/core/grants.ts:114-119 | trimming an id takes the white space of ECMA-262 off both ends and nothing else |
| PrincipalKeys.PaddedPrincipalIsUnreachable | src/core/grants.ts:114-119 | an entry whose id has surrounding spaces changes the outcome of no verification |
| EdgeBreaker.EdgeCircuitBreaker.Evaluate | src/core/circuit-breaker.ts:21-164 | one evaluation over the timed store, with expiry and every storage failure, performs exactly the specified step on the entries and gives its verdict |
| EdgeBreaker.EdgeCircuitBreaker.Reset | src/core/circuit-breaker.ts:167-175 | a reset deletes the trip and starts a new epoch, or as much of that as storage allows |
| EdgeBreakerRuns.VerdictsExactly | src/core/circuit-breaker.ts:36-142 | after any run, without storage failures, a call is cooling off, over budget, looping, an error or admitted exactly by the newest trip, the unbroken chain and the kept history of the run |
| EdgeBreakerRuns.AdmittedIffLogged | src/core/circuit-breaker.ts:136-142 | the log the other lemmas speak of misses no admitted call |
| EdgeBreakerRuns.StoredHistoryIsReplayed | src/core/circuit-breaker.ts:97-142 | over every run, in any order of times, the live history of a signature is the replay of its recorded calls, each pruning what it found and expiring by its own window |
| EdgeBreakerRuns.HistoryAgreesExactly | src/core/circuit-breaker.ts:97-107 | over every run in clock order and any mix of limits, the pruned, expiring history never holds more than the logged calls inside the window, and holds exactly these if and only if nothing was lost: reading backwards, each recorded call in question had not expired when next read, and none in question was older than the window it pruned by |
| EdgeBreakerRuns.HistoryAgreesWithLog | src/core/circuit-breaker.ts:97-107 | it loses nothing, in particular, if no recorded call of the signature had a narrower window |
| EdgeBreakerRuns.LoopVerdictsAgreeExactly | src/core/circuit-breaker.ts:97-130 | a call is stopped as a loop exactly when the full log says so, for every limit, if and only if nothing was lost |
| EdgeBreakerRuns.BudgetAgreesWithLog | src/core/circuit-breaker.ts:69-95 | over every run and any mix of limits, the stored budget is exactly the unbroken chain of counted calls |
| EdgeBreakerRuns.AdmittedWithinOwnLimits | src/core/circuit-breaker.ts:97-142 | an admitted call leaves at most its own number of actions in its chain, whatever limits other calls carried, and at most its own number of repeats in its own window, if nothing of it was lost |
| EdgeBreakerRuns.SlidingWindow | src/core/circuit-breaker.ts:97-142 | with expiry, resets, failures and any mix of limits, a closed window within one epoch holds at most as many admitted calls of a signature as the newest of them allows, if that one looked back so far and nothing was lost to it |
| EdgeBreakerRuns.NarrowestWindow | src/core/circuit-breaker.ts:97-142 | that is so of every window no longer than the narrowest recorded one, and of every window of at most a second |
| EdgeBreakerRuns.UniformSlidingWindow | src/core/circuit-breaker.ts:97-142 | with one window and limit for a signature, any closed window of that length within one epoch holds at most maxRepeats admitted calls |
| EdgeBreakerRuns.NarrowerWindowForgets | src/core/circuit-breaker.ts:104-107 | a run in which a narrower window in between lets three calls pass where two are allowed |
| EdgeBreakerRuns.SessionBudget | src/core/circuit-breaker.ts:69-95 | over any mix of limits, a chain of admitted calls of one epoch, each less than a given time after the last, has at most as many members as the newest of them allows, if no budget counted in between lives shorter than that; an hour always qualifies |
| EdgeBreakerRuns.TripIsRecorded | src/core/circuit-breaker.ts:76-84 | a trip leaves a record that outlasts its cool-off and a minute, and is in force at once |
| EdgeBreakerRuns.CoolingExactly | src/core/circuit-breaker.ts:43-67 | in every run a session is cooling off for a call exactly while its newest trip since a reset is younger than the call's own cool-off and its record has not expired |
| EdgeBreakerRuns.CoolOffHolds | src/core/circuit-breaker.ts:43-67 | after an evaluation that trips and any run with no reset and no shorter cool-off of the session, no call with at least that cool-off is admitted before it ends |
| EdgeBreakerRuns.ShorterCoolOffForgets | src/core/circuit-breaker.ts:43-67 | a run in which a call with a shorter cool-off loses the trip and the session is admitted early |
| EdgeBreakerRuns.ResetThenAdmitted | src/core/circuit-breaker.ts:167-175 | after any run, the call following a later reset is admitted |
| EdgeBreakerRuns.ResetHoldsExactly | src/core/circuit-breaker.ts:51-74 | after any run and a reset, however the run goes on, no call of the session reads a counter from before the reset, if and only if the newest counted call outside any epoch and the newest of each signature left counters that expire at most a day after the reset |
| EdgeBreakerRuns.OldCountersAreDead | src/core/circuit-breaker.ts:69-74 | that is so if no earlier call of the session had a cool-off or window above half a day |
| EdgeBreakerRuns.CounterLifetimes | src/core/circuit-breaker.ts:133-142 | a counter lives twice its cool-off or window and a trip its cool-off, in whole seconds, and no less than an hour or a minute |
| EdgeBreakerRuns.CountersLiveADay | src/core/circuit-breaker.ts:135-137 | counters live at most a day exactly when cool-off and window are at most half a day |
| EdgeBreakerRuns.LongCoolOffRevives | src/core/circuit-breaker.ts:69-74 | on a run of one call and a reset, the old budget is read again a day later exactly for a cool-off above half a day, and the old history exactly for a window above it |
| PythonBreaker.CircuitBreaker.CheckAndRecord | packages/python-sdk/src/vizier/circuit_breaker.py:60-132 | one call performs the specified step on its own session and leaves all others alone |
| PythonBreaker.StatusExactly | packages/python-sdk/src/vizier/circuit_breaker.py:60-132 | after any run, every field of the status in terms of the log: cooling off, over budget, or the repeats the deque can count |
| PythonBreaker.DequeAgreesExactly | packages/python-sdk/src/vizier/circuit_breaker.py:60-132 | the pruned 100-entry deque trips on exactly the recorded calls on which the full log would, in every run, if and only if the limit is at most 101 or above the session budget, or the window is negative |
| PythonBreaker.DequeAgreesWithLog | packages/python-sdk/src/vizier/circuit_breaker.py:60-132 | so the deque trips exactly when the full log would for every limit up to 101, and a session never records more calls than its budget between resets |
| PythonBreaker.LargerLimitsDisagree | packages/python-sdk/src/vizier/circuit_breaker.py:97-111 | for every limit above 101 that is within the session budget, and every window not negative, there is a run on which the log trips and the deque does not |
| ReviewStore.ReviewTable.Decide | src/reviews/api.ts:155-161 | the conditional UPDATE of a decision changes exactly the pending, unexpired row and adds its audit event |
| ReviewStore.ReviewTable.Consume | src/reviews/api.ts:174-177 | the conditional UPDATE of a consume changes exactly the approved row with that token in time |
| ReviewProtocol.AuditTrail | src/reviews/api.ts:134-179 | under every interleaving a review has one of six audit trails: approved and consumed at most once, never consumed without approval, never both consumed and rejected |
| ReviewProtocol.ConsumedAtMostOnce | src/reviews/api.ts:163-179 | under every interleaving at most one consume of a review is answered with success |
| ReviewProtocol.ConsumePresentsTheApproval | src/reviews/api.ts:163-179 | a consume that succeeds presents the token of the single approval that ever won, for the same request and audience |
| ReviewProtocol.ConsumeSucceedsExactly | src/reviews/api.ts:163-179 | a consumer with a possibly stale row succeeds exactly when the approval it saw is still in force and its stamp is before the token's end |
| ReviewAnswers.DecisionSucceedsExactly | src/reviews/api.ts:148-162 | from start to answer, with any steps of others between, a decision succeeds exactly when the row it read was shown, pending, unexpired and of the displayed hash, and its UPDATE still finds it pending and unexpired at the stamp; and what it then writes |
| ReviewAnswers.CancelSucceedsExactly | src/reviews/api.ts:134-141 | a cancel succeeds exactly when the row was shown when read and its UPDATE finds it of the hash, pending or approved |
| ReviewAnswers.ConsumeAnsweredExactly | src/reviews/api.ts:163-179 | from start to answer in any run, a consume succeeds exactly when the row it read was shown, approved with this token of this origin for the request and audience and not over, and its UPDATE finds it approved with this token and time left |
| ReviewAnswers.ApprovedThenConsumed | src/reviews/api.ts:105-179 | undisturbed, a submitted and approved review can be consumed until 300 s have passed or it expires |
| ReviewProtocol.ConsumedInTime | src/reviews/api.ts:148-177 | decided_at <= consumed_at < token_expires_at <= min(decided_at + 300, expires_at) on every consumed review |
| ReviewProtocol.Absorbing | src/reviews/api.ts:134-179 | no handler in flight ever changes a consumed or rejected review again |
| Quorum.EvaluateApprovals | src/core/quorum.ts:383-494 | the loops find a quorum exactly when no approval is disqualifying and enough distinct approvers have a fresh, allowed, matching approval |
| Quorum.EvaluateQuorum | src/core/quorum.ts:302-494 | the evaluation is satisfied exactly for a usable proposal or supplied approvals that meet the constraints |
| Quorum.SatisfiedRestsOn | src/core/quorum.ts:383-494 | a satisfied quorum rests on that many distinct allowed approvers, none of them the agent, each approving this action no longer ago than the maximum age |
| Quorum.ProposalStore.RecordApproval | src/core/quorum.ts:154-252 | recording a vote replaces the proposal exactly as specified, or nothing changes |
| Quorum.ProposalStore.ConsumeProposal | src/core/quorum.ts:257-297 | consuming, with failing writes of lock and proposal, performs exactly the specified step |
| Quorum.ShownToTheEnd | src/core/quorum.ts:236-252 | a vote costs no part of the time to expiry exactly if whole seconds are left, or a minute at most |
| Quorum.VoteRecordedExactly | src/core/quorum.ts:154-252 | exactly which votes are recorded, and that a vote takes the place of the voter's earlier one |
| Quorum.CountsExactly | src/core/quorum.ts:383-494 | an approval counts exactly if it approves, is no older than the maximum age or 15 minutes, and is of another owner where owners must differ |
| Quorum.VoteKeepsProposal | src/core/quorum.ts:200-252 | a vote keeps approvers distinct, allowed and bound to the action, and the status equal to what the votes say |
| Quorum.NewProposalShown | src/core/quorum.ts:79-150 | a new proposal is pending up to its expiry, then expired, and gone after a minute at least |
| Quorum.VotedProposalShown | src/core/quorum.ts:154-252 | after a vote a proposal is shown for the whole seconds left and at least a minute, and one decided by then does not turn expired |
| QuorumCallers.StoredProposalsOk | src/core/quorum.ts:79-297 | in every run every stored proposal is well voted: pending below the minimum, approved or consumed at it without rejection, rejected with one, never stored as expired |
| QuorumCallers.ConsumptionIsBacked | src/core/quorum.ts:257-297 | behind every consumption stand enough distinct approvers, none the proposer, all for this very action |
| QuorumCallers.HandleVerify | src/transport/http.ts:386-404 | the endpoint allows a request with a quorum constraint and proposal exactly when it also consumes the proposal |
| QuorumCallers.GateResponse | src/proxy/index.ts:706-846 | the nested loops over choices and tool calls perform the specified gate, call by call, on the store |
| QuorumCallers.PassedResponse | src/proxy/index.ts:706-846 | a passed response holds at most one sensitive tool call, whose hash matches the proposal it consumes |
| DualControl.GateExactly | src/proxy/index.ts:708-840 | a tool call goes on exactly if no other gate stops it and, when sensitive, its proposal matches, is approved and unlocked and both writes are acknowledged; a sensitive call without a usable proposal leaves a pending one for two approvals and 900 s |
| DualControl.TwoVotersBehindPass | src/proxy/index.ts:708-840 | in every run, behind a passed sensitive call under a proposal of the proxy's stand two different voters who approved that very action, neither of them the session it was made for |
| DualControl.TwoApprovalsPass | src/proxy/index.ts:708-840 | a refused call passes once after two approvals by different others, and not after one |
| QuorumCallers.AtMostOneSuccess | src/transport/http.ts:386-404 | over any sequence of requests, proxy responses, votes and failed writes, a proposal backs at most one success |
| Sanctions50.EvaluateSanctions50Rule | src/core/sanctions-50-rule.ts:103-236 | the recursive loop with its accumulator and visited set ends on every tree and reports a violation exactly when the declarative rule does, with its rounded aggregate and its report |
| Sanctions50.ViolationIsOwnership | src/core/sanctions-50-rule.ts:131-210 | an entity violates exactly when it is listed or the stakes of its blocked holders, read as percentages and added up, reach the threshold at the nearest hundredth; each holder is blocked by the same rule |
| Sanctions50.ReportedExactly | src/core/sanctions-50-rule.ts:147-205 | the entries of a report are exactly those of the rule: a blocked holder with its own stake, or one behind another holder with its rounded part of that stake |
| Sanctions50.ReportedChains | src/core/sanctions-50-rule.ts:147-205 | the reported paths are exactly the chains from the entity down to a blocked holder with no blocked holder between |
| Sanctions50.ViolationIsMonotone | src/core/sanctions-50-rule.ts:142-210 | listing more names, raising stakes at any level, adding holders or lowering the threshold never clears a violation, rounding included |
| Sanctions50.VerdictIgnoresOrder | src/core/sanctions-50-rule.ts:147-210 | the verdict does not depend on the order of siblings at any level |
| Sanctions50.ReportIgnoresOrder | src/core/sanctions-50-rule.ts:147-205 | nor does the report, up to the order of its entries: every path, stake and match in it stays the same |
| WalletHistory.LookbackIsShortestDay | src/reviews/wallet-history.ts:24-32 | for every end block the lookback is in [45000, 432000], spans a day of mixed-rate blocks, and is the shortest such one of at least 45000 |
| WalletHistory.RangesTile | src/reviews/wallet-history.ts:88-91 | the ranges are contiguous, disjoint, cover exactly the lookback, and are as few as their span allows |
| WalletHistory.FewRanges | src/reviews/wallet-history.ts:7-18 | either provider needs at most 44 ranges |
| WalletScan.FetchAll | src/reviews/wallet-history.ts:56-66 | concurrent requests completing in any order share the spare retries, each gets an answer to itself, and a transient failure is final only when none is left |
| WalletHistory.AcceptedTotal | src/reviews/wallet-history.ts:97-114 | an accepted answer of a faithful provider adds exactly what was spent in its range |
| WalletHistory.AcceptedAfterOthers | src/reviews/wallet-history.ts:107-109 | a good answer is never turned down for events seen in earlier ranges |
| WalletScan.ScanLogs | src/reviews/wallet-history.ts:92-114 | over all batches the sum is exactly what was spent in the tiled blocks, and every refusal has a cause |
| WalletScan.CollectWalletHistory | src/reviews/wallet-history.ts:48-118 | a returned history is the sum of the wallet's transfers in exactly the blocks [end - lookback, end], under a fresh, covering, unchanged anchor; at most 50 attempts are made; every refusal has a cause in the answers, the clock or the amount |
| ApiKeys.ApiKeyTable.AuthenticateKey | src/auth/keys.ts:100-222 | the master key is let through and touches nothing; undisturbed, a tenant key succeeds exactly when its row admits one more, and reports the usage it leaves; a wrong prefix, a missing database and an unknown hash are invalid and touch nothing |
| ApiKeys.ApiKeyTable.IncrementKeyUsage | src/auth/keys.ts:229-250 | the conditional UPDATE changes exactly an admissible row |
| ApiKeys.ApiKeyTable.RevokeApiKey | src/auth/keys.ts:269-281 | the conditional UPDATE stamps exactly an unrevoked row of the organization |
| ApiKeys.AttemptsDecidedByLog | src/auth/keys.ts:152-208 | under every interleaving, in any order of months, an attempt succeeds exactly when the key is live and unlimited or its month's streak is below the quota |
| ApiKeys.SuccessesAreGranted | src/auth/keys.ts:152-208 | in every run the successes of a month are counted by the order of attempts alone: every visit to the month, ended by an attempt for another, has the whole quota |
| ApiKeys.QuotaKeptExactly | src/auth/keys.ts:152-208 | in every run a key keeps to its quota in a month, and succeeds exactly min(attempts, q) times, if and only if there are no more live attempts for the month than that or they follow each other |
| ApiKeys.QuotaPerMonth | src/auth/keys.ts:152-208 | in particular, when months do not go back, a key with quota q succeeds exactly min(attempts, q) times a month, counting attempts before its revocation; without a quota it always succeeds |
| ApiKeys.CounterWithinQuota | src/auth/keys.ts:157-171 | the counter of a key with a quota never exceeds it |
| ApiKeys.NeverAfterRevocation | src/auth/keys.ts:269-281 | no attempt after a revocation succeeds |
| ApiKeys.AnswersAgree | src/auth/keys.ts:152-208 | the calls told they consumed are exactly those whose single attempt succeeded |
| ApiKeys.ExceededMeansExhausted | src/auth/keys.ts:173-201 | a call told after its attempt that the quota is exceeded met a live key whose month had that many successes |
| ApiKeys.ReturningMonthRefills | src/auth/keys.ts:157-171 | an attempt for a month other than that of the stored period succeeds however often its month has |
| ApiKeys.QuotaExceededAcrossMidnight | src/auth/keys.ts:157-171 | a run in which a key with quota 1 succeeds twice in one month |
| Policies.DecisionOfBoth | src/core/decision.ts:3-11 | results decide as the worst of their parts, so a rule can only tighten |
| Policies.EvaluatePolicies | src/core/policies.ts:213-340 | the step-by-step pushes, custom policies included, produce exactly the specified results in order |
| Policies.AllowedExactlyWhenAllowable | src/core/policies.ts:213-340 | a request is allowed exactly when every guard holds: provenance, principal, delegation, amount, target, sensitivity, reversibility, grant, breaker, screenings, quorum and custom policies |
| Policies.BlockedExactly | src/core/policies.ts:213-340 | a request is blocked exactly when its action, amount or target is forbidden, a grant, screening, breaker, quorum or custom check fails; what is neither allowed nor blocked is up for review |
| Policies.ReasonsExactly | src/core/policies.ts:54-211 | each reason code of the fixed rules is given exactly in its own case |
| Policies.GuardReasons | src/core/policies.ts:228-326 | each check made beforehand that fails is reported under its own reason, and no other is |
| Policies.RulesInOrder | src/core/policies.ts:213-226 | the fixed rules by name, in order, with a reason exactly when they do not pass |
| Covenants.EvidencePasses | src/covenants/lifecycle.ts:182-225 | a requirement passes exactly when the first observation made for it is of its type, not from the future and not too old |
| Covenants.AllowedExactly | src/covenants/lifecycle.ts:262-330 | an authorization is ALLOW exactly when the covenant is intact and unexpired, the action is the drafted one, all evidence is fresh, no signal invalidates and the policies allow |
| Covenants.ActivatesExactly | src/covenants/lifecycle.ts:94-158 | a draft is activated exactly when its own principal accepted this very draft, after it was made and not in the future, and it has not expired; each refusal names the first of these that fails |
| Covenants.ActivatedThenAllowed | src/covenants/lifecycle.ts:94-158 | under the hash of an activated covenant, ALLOW means exactly that the covenant presented is the activated one up to key order and that its terms are met; its own principal accepted that very draft in time |
| Covenants.ViolationsAreMatches | src/covenants/lifecycle.ts:361-372 | the violation codes are those of the matched forbidden rules and no others |
| Covenants.CompliantExactly | src/covenants/lifecycle.ts:361-372 | an outcome is compliant exactly when no forbidden rule is matched |
| Covenants.OutcomeRefusal | src/covenants/lifecycle.ts:374-430 | which check of a presented receipt and outcome is the first to fail |
| CovenantRuns.OnlyAuthorizationsHaveType | src/covenants/lifecycle.ts:21-22 | only a successful authorization signs under the authorization type, and it signs its own payload with its own key |
| CovenantRuns.RecordedOutcomesWereAuthorized | src/covenants/lifecycle.ts:374-454 | in every run each recorded outcome rests on an earlier ALLOW by the same key and issuer on the same covenant content, and started no earlier than its issue less the skew, no later than the draft's expiry and no later than issue plus lifetime |
| CovenantRuns.IssuedReceipt | src/covenants/lifecycle.ts:272-347 | an issued receipt begins now, ends with the draft or the lifetime, whichever is first, is about this covenant, request, action, evidence and signals, and is ALLOW exactly when all is met |
| CovenantRuns.RecordedReceipt | src/covenants/lifecycle.ts:430-454 | an outcome receipt is about its authorization, covenant and outcome, and compliant exactly when no forbidden rule is matched |
| ReceiptFields.AuthorizationSays | src/covenants/lifecycle.ts:316-334 | an authorization receipt, property by property |
| ReceiptFields.OutcomeSays | src/covenants/lifecycle.ts:433-446 | an outcome receipt, property by property |
| ReceiptFields.CovenantSays | src/covenants/lifecycle.ts:81-92 | what the covenant hash covers |
| CovenantTokens.CanonicalHashesAreSound | src/covenants/lifecycle.ts:68-89 | hashes of canonical texts tell covenant contents and actions apart exactly up to key order |
| CovenantTokens.ReceiptsAreUnforged | src/covenants/lifecycle.ts:349-359 | if signatures on bytes are unforgeable, a receipt that verifies was signed before as this very payload, key and type, so no other token of the service is taken for one |
| CovenantTokens.OutcomesWereAuthorized | src/covenants/lifecycle.ts:374-454 | the same over compact JWS: with unforgeable signatures on bytes every recorded outcome rests on an earlier ALLOW |
| CovenantRuns.AuthorizedThenRecorded | src/covenants/lifecycle.ts:374-454 | with its own receipt, an outcome is recorded exactly when its action was allowed, it ran in time and it can be signed, with exactly the codes of the matched rules |
| CovenantTokens.JwsRoundTrips | src/crypto/jws.ts:137-223 | compact JWS verifies what it signed, as that needs |
| CovenantTokens.AuthorizationIssuedExactly | src/covenants/lifecycle.ts:272-347 | over compact JWS, an authorization is issued exactly when its request can be hashed and its key has a name |
| CovenantTokens.TokensAreRecorded | src/covenants/lifecycle.ts:374-454 | over compact JWS and canonical hashes, an outcome with its own receipt is recorded exactly when its action was allowed, it ran in time and it can be hashed; the signer never stands in the way |
| Luhn.IsValidLuhn | src/core/dlp.ts:64-80 | the right-to-left loop computes the positional checksum of ISO/IEC 7812-1, Annex B, for 13 to 19 digits |
| Luhn.MistypedDigitRejected | src/core/dlp.ts:64-80 | changing one digit of an accepted number, however punctuated, makes it rejected |
| Luhn.SwapDetected | src/core/dlp.ts:64-80 | swapping adjacent digits of a valid number is rejected exactly unless they are equal or 0 and 9 |
| Luhn.OneCheckDigit | src/core/dlp.ts:64-80 | 12 to 18 digits are completed by exactly one check digit |

## Left out

- JsonParser.ParseCanonical: `JSON.parse` is modelled as a parser; that it accepts no more than the grammar of RFC 8259 is not stated.
- Numbers: a JSON number is identified with the text ECMAScript writes for it, so formatting, `-0` and other spellings of one number are not modelled.
- EdgeBreakerRuns.SessionBudget: within one epoch value; after an epoch record expires the session returns to epoch 0 and counts anew.
- Store consistency: breaker and quorum steps on the key/value store are atomic per call, with arbitrary failures but without races between a get and a put; keys are typed records rather than joined texts.
- ReviewProtocol.Absorbing: the scheduled deletion of reviews older than seven days (src/scheduled.ts:10-15) is not among the actions.
- ReviewProtocol.ConsumeSucceedsExactly: the financial triggers of the reservation tables appear only as an update that may abort.
- Grants.MintThenVerify: the authority schema is a parameter of which only `Stable` is used.
- WalletScan.CollectWalletHistory: one chain for the whole scan; a reorganization that is undone before the anchor is read again is not modelled, and neither are pauses between requests.
- Sanctions50.EvaluateSanctions50Rule: name normalization, the sanctions lists and the explanation texts are parameters or absent; percentages are exact reals.
- Quorum.EvaluateQuorum: one `now` stands for both `Date.now()` and the injected clock of the source.
- ApiKeys.QuotaPerMonth: the usage figure returned to a caller is reckoned from the row it first read and may be stale; only undisturbed calls are proved to report it exactly.
- Policies.EvaluatePolicies: result details are absent, and the reason codes of the checks made beforehand are passed in.
- CovenantRuns.RecordedOutcomesWereAuthorized: activation is not claimed to precede authorization, because the code checks only the covenant hash; the risk score is a parameter.
- SHA-256, ECDSA, WebCrypto and random identifiers: ideal functions or parameters.
- The tool-call window of the MCP proxy: the same sliding window as the edge breaker, without expiry or epochs.
- HTTP routing, consoles, discovery documents, telemetry, SDK clients, gated deploys and framework adapters: plumbing without a state property.
- Regular-expression detectors, entropy scoring and address or domain normalization: their content is the expressions themselves.
- The Python canonicalizer: its float texts and key order differ from JavaScript's, and no agreement is claimed.

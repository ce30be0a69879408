# Verified model of the approval and claim logic

This Dafny project models the parts of the Stellar agent wallet that decide who may
approve what, and which claimable balances can be claimed, and proves what they
guarantee over all inputs and all runs. `dafny verify dfyconfig.toml` checks it.

## What is modelled

**Remote approval.** `Remotes` is the remote server as a step relation: login,
enrolment, challenge and decision requests in flight, the login limiter, the two
challenge stores as operation histories, the single session, and underneath them the
decision seam. Every shared access of a request is its own step, so requests interleave
anywhere between two of them. `RemoteProofs` and `RemoteLinks` hold what each step
keeps, `RemoteRuns` the guarantees over whole runs, from the stored attestation back to
the operator's login, `RemoteProgress` that an operator with a live session is never
locked out, `RemoteLimits` what the limiter means for the login store, and
`RemoteExamples` exactly when its bounds carry over. `Listeners` is the same code as an
object whose methods update its fields; `ListenerRuns` proves that what a handler may
answer and spend is what a run of the server comes to.

**The decision seam.** `Decisions` is a step relation over any number of approve and
reject handlers, the store operations of other processes, disk faults, panics and a
poisoned mutex. A handler takes the store lock and the writer's mutex in separate
steps, and an approve drops the store lock between validating and persisting. The store
write and the grant write each succeed, fail before their rename or fail after it.
`Lifecycles` is an automaton of one nonce's life read off the trace alone;
`DecisionProofs`, `DecisionOutcomes`, `DecisionKinds` hold the invariants,
`DecisionRuns`, `DecisionGates`, `DecisionOwners` and `DecisionClocks` the theorems,
`DecisionExamples` runs that show where documented guarantees stop. `Inboxes` is the
imperative form of the two operations; `InboxRuns` and `ApproveRuns` prove that a call is
a run of the seam.
`GateRuns` uses that to say when a granted gate can be decided again, and
`ResolvedAnswers` says when a decision hands back an attestation that was there before.

In the source only decisions hold the audit writer's mutex. The event `ForeignPoison`, a
panic of some other holder, is a hypothetical extension: `PoisonStopsDecisions` and
`RejectionOutlivesForeignPoison` say what the order of locks would then still give, and
`PoisonIsFinal` is the property of the code as it is.

**Challenge stores and limiter.** `ChallengeStores` defines the lazily pruned deques
and the unpruned history they refine, `ChallengeRuns` what follows over runs,
`ChallengeObjects` the mutable stores. `TokenBuckets` is the limiter, over reals.

**Claimable balances.** `ClaimPredicates` has the depth-bounded, fail-closed evaluator
and the window deriver; `ClaimPreviews` the preview and its guards.

**Text forms.** `BalanceIds`, `Sessions`, `HostBinds`, `JsonTexts` with `JsonIslands`,
over `Hex` and `Text`.

## Inputs and assumptions

- SHA-256 and HMAC are function parameters. Only `ChallengeDeterminesContent` assumes
  anything of the hash, namely that it has no collisions. An attestation is kept
  symbolic, as the inputs its keyed hash covers.
- Assertion verification, the sign counter, credential lookup, keychain access, store
  opening, disk outcomes, random bytes and clock readings are part of the events.
  Random bytes are not assumed distinct. The process clock (`Instant`) is monotone;
  the wall clock (unix milliseconds) is arbitrary.
- The strkey codec is a parameter with its laws: round trip, canonical text, 58
  base32 characters. URL parsing and IP recognition are parameters too.
- Session age and CSRF are checked when a request is admitted. A request that is
  admitted in time may reach the decision later, which the code allows.

## Where the code and its documentation differ

The model follows the code. For each difference below the named lemmas give an input
and the condition under which the promise does hold.

- A write that fails after its rename, of the store or of a gate's grant, has taken
  effect although the decision answers unavailable (`OtherOutcomesChangeNothing`,
  `UnsyncedRejectionChangesTheStore`, `GrantedGateCanBeRejected`).
- A gate entry's grant is a file of its own and the removal of the entry is best effort.
  A granted gate can be decided again exactly if that very write left the entry
  (`GrantedAgainExactlyIfLeft`, `OneDecisionPerInsertion`, `GrantedGateCanBeRejected`).
- The attestation of a spent entry is said not to be handed back. A reject never does; an
  approve does exactly when one of its looks finds the entry unexpired and attested
  (`SpentAttestationHandedBack`, with the runs of `SpentIsShown` and
  `SpentPaymentIsShown`).
- Derived claim windows are documented as exact; they are outer bounds. A window is exact
  at all times if and only if it is at the epoch and at each time its predicate mentions
  (`ExactIffAtBreakpoints`, with `ExactWindowCondition` as the closed form for
  conjunctions, and `WindowIsNotExactEverywhere`).
- The digest decoder is documented to refuse characters that are not hex digits; it
  accepts a leading plus sign in a pair (`DigestDecoderIsStrictUnlessPlus`,
  `PlusIsAccepted`).
- The saturating headroom subtraction differs from exact arithmetic in one corner
  (`HeadroomAgreesExactly`, `HeadroomDisagreesAtTheCorner`).
- The limiter bounds admissions, not mints: the limiter and the login store are locked
  one after the other, so the bound per window holds of mints exactly if no request is
  held up in between (`BoundedIffNoDelay` with `DelayedMintsExceedTheWindow`, and
  `FullOnlyWhenAdmittedIffNoDelay` with `FullOnFewAdmissions`).

## Model

| member | source | states |
|---|---|---|
| `RemoteRuns.Agreement` | crates/stellar-agent-approval-remote/src/routes.rs:667-783 | Over every run, each remote decision that reached the decision seam was admitted under a session less than 30 minutes old, opened by a login, whose allowlisted credential is the assertion's, with its cookie and CSRF value; it spent a challenge minted for its own nonce less than 120 s before, from the digest of the entry then parked; and the handler it started carries out exactly what it asked |
| `RemoteRuns.AgreementIsInjective` | crates/stellar-agent-approval-remote/src/routes.rs:713-724 | No two decisions rest on the same challenge mint, even if challenge bytes repeat: the map from decisions to mints is an injection |
| `RemoteRuns.RemoteHandlerHasRequest` | crates/stellar-agent-approval-remote/src/routes.rs:746-782 | Every remote decision in the seam comes from exactly one such request |
| `RemoteRuns.SessionsComeFromChallenges` | crates/stellar-agent-approval-remote/src/routes.rs:300-390 | The session behind every remote decision was installed by a login request of that credential which consumed, before generating the session, a login challenge minted less than 120 s earlier; no two logins share a mint |
| `RemoteRuns.VerificationsNeverExceedMints` | crates/stellar-agent-approval-remote/src/routes.rs:713-744 | Over a whole run the assertions verified for a (challenge, nonce) pair, whether or not they succeed, never outnumber the accepted mints of that pair |
| `RemoteRuns.OnlyCheckedRequestsSpend` | crates/stellar-agent-approval-remote/src/routes.rs:677-711 | A decision request touches the challenge store only after all its checks: one with no body, a bad decision word, or a credential that is not the session's spends nothing |
| `RemoteRuns.LiveChallengesAreBound` | crates/stellar-agent-approval-remote/src/routes.rs:642-657 | In every reachable state every live action challenge is the hash of 32 random bytes, the digest of its entry as it was when read, and its nonce |
| `RemoteRuns.PreimageIsInjective` | crates/stellar-agent-approval-remote/src/challenge_store.rs:229-240 | The preimage is the 32 random bytes, the 32 bytes of the digest and the nonce, in this order, and determines all three |
| `RemoteRuns.ChallengeDeterminesContent` | crates/stellar-agent-approval-remote/src/routes.rs:198-221 | With a collision-free hash, two challenge requests that got equal challenges are for the same nonce and the same content digest |
| `RemoteRuns.RemoteEffectIsAuthorized` | crates/stellar-agent-approval-remote/src/routes.rs:769-782 | Every effect a remote decision has on the approval store goes back to one authenticated request and its challenge request, and was preceded by an audit row with that request's direction and credential |
| `RemoteRuns.AttestedIsWhatWasChallenged` | crates/stellar-agent-approval-remote/src/routes.rs:624-663 | What a remote approval attests is what its challenge bound: the stored attestation covers the content that was read for the challenge, provided the nonce was not inserted anew in between |
| `RemoteProgress.OperatorIsNeverLockedOut` | crates/stellar-agent-approval-remote/src/challenge_store.rs:24-28 | From every reachable state with a live session, a parked entry and a free store, the ceremony can be completed at once, however full the challenge store is: the run goes on to a decision at the seam for this nonce and operator |
| `RemoteProgress.FreshIsAccepted` | crates/stellar-agent-approval-remote/src/challenge_store.rs:165-201 | After any history an action challenge can be consumed right after it is minted |
| `RemoteRuns.InvKept` | crates/stellar-agent-approval-remote/src/routes.rs:140-179 | Every step of every request, every inbox step and every outside step keeps all of the server's invariants |
| `RemotePaths.SeamRunsEmbed` | crates/stellar-agent-approval-ui/src/decision.rs:202-211 | Whatever the seam can do without remote decisions happens, event for event, under some run of the server |
| `RemoteProofs.RequestsKept` | crates/stellar-agent-approval-remote/src/routes.rs:140-163 | What each in-flight request's progress claims stays true: session from a login, age, cookie, CSRF, consumed operation, entry as read, handler as ordered |
| `RemoteLinks.MadeKept` | crates/stellar-agent-approval-remote/src/routes.rs:253-289 | Every login mint was made by a request for one, every action mint by a challenge request, every successful consume by a decision request, every remote handler by an applied request |
| `RemoteProofs.LimiterKept` | crates/stellar-agent-approval-remote/src/rate_limit.rs:67-82 | Every step of every request, interleaved at will, leaves the server's two limiter fields where a run of the token bucket on the requests so far would |
| `RemoteLimits.LoginAdmissionsPerWindow` | crates/stellar-agent-approval-remote/src/rate_limit.rs:49-82 | Over every run at most 20 + 2 (hi - lo) login challenges and enrolment pages together are admitted in any window |
| `RemoteLimits.LoginMintsPerWindow` | crates/stellar-agent-approval-remote/src/routes.rs:253-289 | Over every run, if no request waits more than `delay` between limiter and store, at most 20 + 2 (hi - lo + delay) login mints are asked for in any window |
| `RemoteLimits.LoginMintsSinceStart` | crates/stellar-agent-approval-remote/src/rate_limit.rs:49-82 | However long requests wait, at most 20 + 2 hi login mints are asked for by time hi |
| `RemoteLimits.MintsArePaidFor` | crates/stellar-agent-approval-remote/src/routes.rs:253-289 | Any set of login mints has at least as many admissions of the limiter: the map from mints to admissions is an injection |
| `RemoteLimits.StoreFullNeedsMints` | crates/stellar-agent-approval-remote/src/challenge_store.rs:69-81 | Over every run a request is told the login store is full only if 257 mints, its own included, were asked for in the last 120 s |
| `RemoteLimits.StoreFullNeedsAdmissions` | crates/stellar-agent-approval-remote/src/routes.rs:253-289 | If no request waits more than `delay`, those 257 were also admitted by the limiter within 120 s + delay |
| `RemoteExamples.BoundedIffNoDelay` | crates/stellar-agent-approval-remote/src/routes.rs:253-289 | The limiter's bound per window holds of the mints in every reachable state if and only if the delay allowed between limiter and store is zero |
| `RemoteExamples.DelayedMintsExceedTheWindow` | crates/stellar-agent-approval-remote/src/routes.rs:253-289 | For any delay d up to half a second, a run with 21 mints in a window whose bound is 21 - 2 d |
| `RemoteExamples.FullOnlyWhenAdmittedIffNoDelay` | crates/stellar-agent-approval-remote/src/challenge_store.rs:69-81 | That a full store means 257 admissions in the last 120 s holds in every reachable state if and only if that delay is zero |
| `RemoteExamples.FullOnFewAdmissions` | crates/stellar-agent-approval-remote/src/challenge_store.rs:69-81 | For any such delay, a run that ends with a full store on 237 admissions in the last 120 s |
| `Listeners.Listener.LoginChallengePost` | crates/stellar-agent-approval-remote/src/routes.rs:253-289 | Rate limited exactly when one more admission breaks 20 + 2 per second in some window ending now; refused as full exactly when 256 live challenges are outstanding; otherwise mints the drawn bytes; and what the histories then are |
| `Listeners.Listener.EnrollPageGet` | crates/stellar-agent-approval-remote/src/routes.rs:427-447 | Draws on the same limiter, and is shown exactly when that bound leaves room |
| `Listeners.Listener.RequireSession` | crates/stellar-agent-approval-remote/src/routes.rs:140-163 | Grants the session exactly when it is less than 1800 s old and the cookie is its token, and drops it exactly when it is not |
| `Listeners.Listener.LoginAssertionPost` | crates/stellar-agent-approval-remote/src/routes.rs:300-390 | Succeeds exactly when the credential is allowlisted and on record and its challenge is live in the history, verifies and counts; spends the challenge before verifying; installs exactly the new session |
| `Listeners.Listener.ActionChallengePost` | crates/stellar-agent-approval-remote/src/routes.rs:624-663 | Which of the six answers is given when, what is minted, and that nothing is minted otherwise |
| `Listeners.Listener.ActionDecisionPost` | crates/stellar-agent-approval-remote/src/routes.rs:667-783 | Reaches the decision exactly when every check passes and the challenge is live for this very nonce; which refusal otherwise; consumes exactly one operation and only after the checks |
| `ListenerRuns.EnrollIsRun` | crates/stellar-agent-approval-remote/src/routes.rs:427-447 | From every reachable state, any answer and shared state the handler's contract allows are those of a run that adds this one request |
| `ListenerRuns.LoginChallengeIsRun` | crates/stellar-agent-approval-remote/src/routes.rs:253-289 | The same for a login challenge: limiter, mint or refusal |
| `ListenerRuns.LoginIsRun` | crates/stellar-agent-approval-remote/src/routes.rs:300-390 | The same for a login, through consume, verification and the new session |
| `ListenerRuns.ActionChallengeIsRun` | crates/stellar-agent-approval-remote/src/routes.rs:624-663 | The same for a challenge request, whatever the store's opening came to |
| `ListenerRuns.DecisionIsRun` | crates/stellar-agent-approval-remote/src/routes.rs:667-783 | The same for a decision; and the seam is ordered exactly the decision the handler answers to apply, or nothing |
| `ChallengeObjects.LoginChallengeStore.MintAt` | crates/stellar-agent-approval-remote/src/challenge_store.rs:69-81 | Mints exactly when fewer than 256 mints of the history are unconsumed and younger than 120 s |
| `ChallengeObjects.LoginChallengeStore.ConsumeAt` | crates/stellar-agent-approval-remote/src/challenge_store.rs:92-100 | Succeeds exactly when the full history holds the challenge live, and removes it |
| `ChallengeObjects.ActionChallengeStore.MintAt` | crates/stellar-agent-approval-remote/src/challenge_store.rs:165-175 | Always mints; the deque stays the one of the history, within its cap |
| `ChallengeObjects.ActionChallengeStore.ConsumeAt` | crates/stellar-agent-approval-remote/src/challenge_store.rs:189-201 | Succeeds exactly when the full history holds the challenge live for this very nonce, and removes it |
| `ChallengeObjects.Extend` | crates/stellar-agent-approval-remote/src/challenge_store.rs:103-106 | One more operation on the pruned deque steps and answers as the unpruned history does |
| `ChallengeStores.AnswersAreHistory` | crates/stellar-agent-approval-remote/src/challenge_store.rs:69-106 | For every monotone run, each answer of either lazily pruned store is the one computed from the full history of unconsumed, unevicted mints younger than the time-to-live |
| `ChallengeStores.DequeIsLive` | crates/stellar-agent-approval-remote/src/challenge_store.rs:165-206 | After every run the deque is exactly the young part of the history's outstanding mints, in order |
| `ChallengeRuns.ConsumeTakesFreshMint` | crates/stellar-agent-approval-remote/src/challenge_store.rs:189-201 | A consume succeeds exactly when it takes an earlier accepted mint of the same key less than 120 s old |
| `ChallengeRuns.NoMintTakenTwice` | crates/stellar-agent-approval-remote/src/challenge_store.rs:92-100 | Single use: successful consumes inject into accepted mints |
| `ChallengeRuns.LostHow` | crates/stellar-agent-approval-remote/src/challenge_store.rs:165-206 | A mint leaves the store's history only by being consumed or evicted |
| `ChallengeRuns.EvictionIsLate` | crates/stellar-agent-approval-remote/src/challenge_store.rs:165-175 | An action challenge is evicted only after at least 256 later mints |
| `ChallengeRuns.ChallengeSurvives` | crates/stellar-agent-approval-remote/src/challenge_store.rs:69-81 | An accepted, unconsumed challenge can still be consumed within 120 s: always in the login store, and in the action store while fewer than 256 mints followed |
| `ChallengeRuns.DequeBounded` | crates/stellar-agent-approval-remote/src/challenge_store.rs:92-106 | Both deques hold at most 256 entries, sorted by mint time, at every point of every run |
| `ChallengeRuns.ConsumesNeverExceedMints` | crates/stellar-agent-approval-remote/src/challenge_store.rs:189-201 | Successful consumes of a key plus its outstanding mints never exceed its accepted mints |
| `TokenBuckets.TokenBucket.NewAt` | crates/stellar-agent-approval-remote/src/rate_limit.rs:49-56 | A new bucket is full and has an empty history |
| `TokenBuckets.TokenBucket.TryAcquireAt` | crates/stellar-agent-approval-remote/src/rate_limit.rs:67-75 | Admits exactly when one more admission breaks no window that ends now |
| `TokenBuckets.TokenBucket.RefillAt` | crates/stellar-agent-approval-remote/src/rate_limit.rs:77-82 | The level becomes the history's level now, capped at the capacity |
| `TokenBuckets.LevelIsTightestWindow` | crates/stellar-agent-approval-remote/src/rate_limit.rs:77-82 | The token level is the room left by the tightest window ending now: no window leaves less, some window leaves exactly that, and a token is there exactly when every window has room for one more |
| `TokenBuckets.AdmissionsPerWindow` | crates/stellar-agent-approval-remote/src/rate_limit.rs:67-82 | In every window [s, e] of every run at most capacity + rate * (e - s) requests are admitted |
| `TokenBuckets.RefusalIsForced` | crates/stellar-agent-approval-remote/src/rate_limit.rs:67-75 | Every refusal at t has a window ending at t whose bound one more admission would break |
| `TokenBuckets.BucketDominates` | crates/stellar-agent-approval-remote/src/rate_limit.rs:49-82 | Most permissive: no policy that stays in the envelope on the same requests has admitted more at any point |
| `TokenBuckets.BucketIsMostPermissive` | crates/stellar-agent-approval-remote/src/rate_limit.rs:49-82 | The bucket itself stays in the envelope, so it is the greatest policy that does |
| `DecisionGates.OneDecisionPerInsertion` | crates/stellar-agent-approval-ui/src/decision.rs:299-446 | Across all interleavings of approvers, rejecters, outside processes, faults and panics, a nonce that was attested, granted, rejected, spent or removed is attested, granted or rejected again only after being inserted anew, or after a grant whose own write left the entry |
| `DecisionGates.OneDecisionPerNonce` | crates/stellar-agent-approval-ui/src/decision.rs:459-574 | A nonce inserted once is decided at most once, and never after it was spent or removed, but for a grant whose own write left the entry |
| `DecisionGates.OnlyUndecidedIsDecided` | crates/stellar-agent-core/src/approval/attest.rs:376-657 | Every attestation, grant and rejection of every run falls on a nonce whose whole history leaves it undecided |
| `DecisionGates.GrantTakesEntryOut` | crates/stellar-agent-core/src/approval/attest.rs:376-657 | Over every run a grant is followed at once by the removal of its entry if and only if neither its own write failed after the rename nor the removal before its own; and no handler grants twice |
| `DecisionGates.GrantClosesUnlessLeft` | crates/stellar-agent-core/src/approval/toolset_grant.rs:362-408 | The write of a granting handler publishes the grant on an undecided nonce, and the nonce stays undecided exactly if that write left the entry, else it is gone |
| `GateRuns.GrantedAgainExactlyIfLeft` | crates/stellar-agent-core/src/approval/attest.rs:376-657 | After a grant some run goes on to decide the nonce without a new insertion if and only if the granting write left the entry |
| `DecisionRuns.StoredAttestationStands` | crates/stellar-agent-core/src/approval/store.rs:4693-4729 | In every step of every run the attestation stored for a nonce changes only if the entry was pending, or if an outside insertion replaces an expired entry, and then the whole entry is the inserted one |
| `DecisionOwners.AuditBeforeEffect` | crates/stellar-agent-approval-ui/src/decision.rs:359-405 | Over every run, every effect of the inbox was preceded by that handler's own audit row with the same nonce, direction and operator credential; the entry it changed was pending, and the requester, local owner or allowlisted passkey bound to the nonce, was entitled to it |
| `DecisionOwners.EffectIsByOwner` | crates/stellar-agent-core/src/approval/attest.rs:148-190 | Every step that has an effect finds its entry pending, with its requester entitled to it: a local requester whose uid is the entry's owner, or an allowlisted passkey bound to the nonce |
| `DecisionClocks.NothingExpiredIsApproved` | crates/stellar-agent-core/src/approval/attest.rs:684-710 | Over every run no attestation and no grant of the inbox falls on an entry, of any kind, whose expiry was reached by the clock its handler read at its check |
| `DecisionRuns.OtherOutcomesChangeNothing` | crates/stellar-agent-approval-ui/src/decision.rs:515-573 | A decision that answers neither attested nor rejected had an effect if and only if one of its writes, of the store or of the grant, failed after the rename; it then answers unavailable, and every other such decision left everything unchanged |
| `DecisionRuns.UnsyncedMeansFaulted` | crates/stellar-agent-core/src/approval/toolset_grant.rs:362-408 | Over every run an effect, a grant included, is left without a durable-write report exactly when that handler's write failed after its rename |
| `DecisionOutcomes.ChangeIsMarked` | crates/stellar-agent-approval-ui/src/decision.rs:412-444 | No step of a decision changes the store without an effect of that handler being recorded |
| `DecisionRuns.SuccessIsReal` | crates/stellar-agent-approval-ui/src/decision.rs:407-411 | An answer of attested or rejected is backed by the durable effect it names, on an entry that was pending: a gate by its grant, every other kind by an attestation of its own subject, which is the one shown unless the kind shows none |
| `DecisionRuns.PoisonStopsDecisions` | crates/stellar-agent-approval-ui/src/decision.rs:364-376 | Even if the writer's mutex had another holder, after it is poisoned the only effect a decision could still have is a rejection whose row was written before |
| `DecisionRuns.PoisonIsFinal` | crates/stellar-agent-approval-ui/src/decision.rs:520-528 | Decisions being the only holders of the mutex, no decision has any effect after it is poisoned |
| `DecisionRuns.PanicUnwinds` | crates/stellar-agent-approval-ui/src/decision.rs:364-376 | A panic can strike any decision that is not over, at any point of any run; it lets go of both locks, changes no store, and poisons the mutex exactly if it held it |
| `DecisionRuns.OthersActBetween` | crates/stellar-agent-approval-ui/src/decision.rs:336-345 | Another process acts on the store at exactly the points of a run at which no decision holds its lock |
| `DecisionRuns.WriterNestsInStore` | crates/stellar-agent-approval-ui/src/decision.rs:359-405 | No handler waits for the store lock while holding the writer's mutex |
| `DecisionRuns.SomeHandlerCanProceed` | crates/stellar-agent-approval-ui/src/decision.rs:279-292 | No deadlock: while a decision is under way in any reachable state, some decision can take a normal step |
| `DecisionRuns.InvKept` | crates/stellar-agent-approval-ui/src/decision.rs:202-211 | Every step keeps the lock, entry, lifecycle, row, outcome, entitlement and poison invariants |
| `DecisionProofs.LifeKept` | crates/stellar-agent-core/src/approval/attest.rs:684-710 | For every nonce the order of events, grants included, stays legal for its lifecycle and ends where the store is, although the store lock is dropped between validating and persisting |
| `DecisionProofs.EntriesKept` | crates/stellar-agent-core/src/approval/attest.rs:376-657 | What the holder of the store lock checked stays true until it writes |
| `DecisionProofs.RowsKept` | crates/stellar-agent-core/src/approval/attest.rs:792-828 | Each effect stays backed by an earlier row |
| `Lifecycles.DecidedOncePerInsertion` | crates/stellar-agent-core/src/approval/store.rs:4934-4970 | A legal history decides a settled nonce again only after a new insertion, or after a grant that was not followed by the removal of its entry |
| `DecisionKinds.AttestedIsWhatWasSeen` | crates/stellar-agent-core/src/approval/attest.rs:735-768 | If an entry was read and its nonce not inserted anew since, the attestation stored for it is over the subject of the content that was read, in the form its kind must have, and the entry read was no tombstone |
| `DecisionKinds.CoverKept` | crates/stellar-agent-core/src/approval/attest.rs:376-657 | Every attestation by the inbox is over the subject of the kind its entry was inserted with, the digest or for an opt-in its fields, under the inbox's own binding; only recordable kinds are attested |
| `DecisionExamples.UnsyncedRejectionChangesTheStore` | crates/stellar-agent-core/src/approval/store.rs:5396-5450 | A run in which a rejection answers unavailable although the entry is now rejected, against the comment at decision.rs that it stays pending |
| `DecisionExamples.GrantedGateCanBeRejected` | crates/stellar-agent-core/src/approval/toolset_grant.rs:362-408 | Runs in which a gate is granted, its entry left by either of the two faults, and later rejected; when the grant's own write failed after its rename the approval even answered unavailable |
| `Inboxes.Inbox.ApplyReject` | crates/stellar-agent-approval-ui/src/decision.rs:459-574 | When exactly a rejection takes effect, the tombstone it writes, the row it logs, and which other answer is given when |
| `Inboxes.Inbox.ApplyApprove` | crates/stellar-agent-approval-ui/src/decision.rs:299-446 | When exactly an approval takes effect given what others did in the gap, what it writes, logs and grants, one condition per answer, and that outside changes in the gap stand otherwise |
| `Inboxes.Inbox.AttestAndPersist` | crates/stellar-agent-core/src/approval/attest.rs:376-657 | The part under the re-opened lock: one condition per answer, and attests exactly an unchanged, undecided, unexpired, attestable entry over the subject of its kind |
| `Inboxes.ApproveContractIsExact` | crates/stellar-agent-approval-ui/src/decision.rs:299-446 | The approval's contract allows one answer and one store only |
| `Inboxes.RejectContractIsExact` | crates/stellar-agent-approval-ui/src/decision.rs:459-574 | So does the rejection's |
| `Inboxes.ExpiryDecides` | crates/stellar-agent-core/src/approval/store.rs:3691-3695 | For every entry of every kind an approval that attests read a clock before the entry's expiry at both looks, and the answer is expired exactly if a look it got to read a clock at or past it |
| `InboxRuns.RejectIsRun` | crates/stellar-agent-approval-ui/src/decision.rs:459-574 | From any idle state of any run, the seam has a run that adds this one rejection by this requester and ends with the very answer, store and audit row of the call |
| `ApproveRuns.ApproveIsRun` | crates/stellar-agent-approval-ui/src/decision.rs:299-446 | The same for an approval by its requester, its attestation and published grants included, with the outside operations of its gap |
| `ResolvedAnswers.StoredAttestationHandedBack` | crates/stellar-agent-core/src/approval/attest.rs:148-190 | Over every run a decision answers with an attestation that was there before exactly if it is an approve one of whose looks found one unexpired, or a reject that found one on a live entry; and it is the one stored there |
| `ResolvedAnswers.SpentAttestationHandedBack` | crates/stellar-agent-approval-ui/src/decision.rs:412-432 | Over every run a decision has handed back a spent entry's attestation if and only if it is an approve one of whose looks found that entry unexpired and attested; a reject never does |
| `ResolvedAnswers.SpentIsShown` | crates/stellar-agent-approval-ui/src/decision.rs:323-330 | For every entry the store can record, attested, spent and not expired, a run in which an approve is answered with the spent entry's attestation, whoever asks |
| `ResolvedAnswers.SpentPaymentIsShown` | crates/stellar-agent-approval-ui/src/decision.rs:323-330 | One such run, for a payment and a local operator |
| `ResolvedAnswers.AnsweredWhoeverAsks` | crates/stellar-agent-core/src/approval/attest.rs:148-190 | Over every run a requester who may not decide the entry is answered with its attestation if and only if an approve's first look or a reject's look found one, as these come before the requester is checked; such a decision never has an effect |
| `Approvals.AttestedDigestIsChallengeDigest` | crates/stellar-agent-approval-remote/src/routes.rs:198-221 | What an approval attests is fixed by the kind: the subject is the digest an action challenge binds, or for an opt-in its fields, with the nonce and the owner |
| `Approvals.PlansAreForLiveKinds` | crates/stellar-agent-core/src/approval/attest.rs:376-657 | Only a live, attestable kind gets as far as a row; recording and granting kinds are told apart exactly |
| `Approvals.RecordAfterPrepareSucceeds` | crates/stellar-agent-core/src/approval/store.rs:5236-5325 | Under one lock the store's own re-checks never refuse what the attest path prepared, and change only the attestation |
| `Approvals.TombstoneLastsAnHour` | crates/stellar-agent-core/src/approval/store.rs:4875-4905 | A rejected tombstone keeps its owner, names the kind it replaced, is decided, and expires exactly an hour later, saturating at the end of the clock |
| `Approvals.KindNamesExact` | crates/stellar-agent-core/src/approval/store.rs:777-795 | Each kind, and no other, has its name, which its tombstones keep |
| `Approvals.InsertExact` | crates/stellar-agent-core/src/approval/store.rs:4513-4541 | An insertion drops exactly the expired entries and adds the new one; with 4096 live entries it only drops, and for a live nonce or a decided entry nothing changes |
| `Approvals.CollectExact` | crates/stellar-agent-core/src/approval/store.rs:5165-5175 | A collection drops exactly the entries whose expiry is reached |
| `Approvals.SpendExact` | crates/stellar-agent-core/src/approval/store.rs:4934-4970 | A spend marks exactly a present entry, with exactly a hash of 64 lowercase hex digits, and keeps owner, expiry and attestation |
| `Approvals.AttestExact` | crates/stellar-agent-core/src/approval/store.rs:4693-4729 | An attestation is recorded exactly on a present, unexpired, unattested entry of a kind that records one, and nothing else changes |
| `Approvals.RejectExact` | crates/stellar-agent-core/src/approval/store.rs:4875-4905 | A rejection by another process leaves a tombstone exactly where nothing was decided |
| `Approvals.DigestsExact` | crates/stellar-agent-approval-remote/src/routes.rs:198-221 | The digest a challenge binds and an attestation is made over is the proposal's, the artifact's, or the bytes the envelope hex spells; an opt-in is attested over its fields; a kind without a readable digest is challenged over 32 zero bytes |
| `ClaimPredicates.EvaluateDepth` | crates/stellar-agent-claimable/src/predicate.rs:89-157 | The recursion with early-return loops computes the specified verdict or refusal |
| `ClaimPredicates.VerdictIsMeaning` | crates/stellar-agent-claimable/src/predicate.rs:80-157 | A verdict is the boolean meaning under every assignment of truth values to the refused sub-terms |
| `ClaimPredicates.WellFormedGetsVerdict` | crates/stellar-agent-claimable/src/predicate.rs:89-157 | Every well-formed predicate of up to 64 levels gets a verdict, and it is the classical meaning |
| `ClaimPredicates.DepthLimitExact` | crates/stellar-agent-claimable/src/predicate.rs:89-157 | A chain of negations is evaluated up to the 64th and refused as too deep from the 65th on |
| `ClaimPredicates.RefusalIsReal` | crates/stellar-agent-claimable/src/predicate.rs:89-157 | A refusal gives the reason of a sub-term that has that very fault: deeper than 64, too short a list of that length, a negation of nothing, or a relative time |
| `ClaimPredicates.AllStopsAtWitness` | crates/stellar-agent-claimable/src/predicate.rs:101-116 | A conjunction answers true exactly when every child does; otherwise its verdict or refusal is that of the first child, from the left, that does not |
| `ClaimPredicates.AnyStopsAtWitness` | crates/stellar-agent-claimable/src/predicate.rs:118-133 | A disjunction answers false exactly when every child does; otherwise its verdict or refusal is that of the first child, from the left, that does not |
| `ClaimPredicates.SameBetweenBreakpoints` | crates/stellar-agent-claimable/src/predicate.rs:89-157 | The result, refusals included, is the same at two times with no written absolute time between them |
| `ClaimPredicates.DeMorgan` | crates/stellar-agent-claimable/src/predicate.rs:89-157 | The negated conjunction and the disjunction of negations evaluate alike at every depth and time, refusals included, except that a list too short to be legal is refused in each form's own words |
| `ClaimPredicates.DeriveWindowDepth` | crates/stellar-agent-claimable/src/predicate.rs:179-226 | The loop with two running bounds computes the intersection of the children's windows |
| `ClaimPredicates.WindowDepthLimitExact` | crates/stellar-agent-claimable/src/predicate.rs:179-226 | A deadline is derived through 64 nested conjunctions and through no more |
| `ClaimPredicates.WindowOfAllIsIntersection` | crates/stellar-agent-claimable/src/predicate.rs:190-215 | A time is in a conjunction's window exactly when it is in every child's |
| `ClaimPredicates.BoundsOfAllExact` | crates/stellar-agent-claimable/src/predicate.rs:190-215 | The bounds of a conjunction are the latest start and the earliest end among its children's, even where they cross |
| `ClaimPredicates.WindowFormsExact` | crates/stellar-agent-claimable/src/predicate.rs:179-226 | Which forms give a bound, and that no other does |
| `ClaimPredicates.SatisfiedIsInWindow` | crates/stellar-agent-claimable/src/predicate.rs:175-226 | For any predicate, a time at which it is satisfied lies in the derived window |
| `ClaimPredicates.CrossedWindowIsNeverSatisfied` | crates/stellar-agent-claimable/src/predicate.rs:175-226 | Crossed bounds mean the balance is never claimable |
| `ClaimPredicates.ExactWindow` | crates/stellar-agent-claimable/src/predicate.rs:175-226 | On conjunctions of positive absolute bounds, in the window is equivalent to satisfied |
| `ClaimPredicates.ExactIffAtBreakpoints` | crates/stellar-agent-claimable/src/predicate.rs:159-226 | For every predicate, disjunctions, negations and refusals included, the window is exact at all times if and only if it is exact at the epoch and at each absolute time written in it |
| `ClaimPredicates.ExactWindowCondition` | crates/stellar-agent-claimable/src/predicate.rs:159-173 | Closed form for conjunctions: the window is exact at every time if and only if no deadline is at or before the epoch or the bounds already cross |
| `ClaimPredicates.WindowIsNotExactEverywhere` | crates/stellar-agent-claimable/src/predicate.rs:159-173 | Two predicates whose derived window holds times at which they are not satisfied, although every derived bound is documented as exact |
| `ClaimPreviews.Build` | crates/stellar-agent-claimable/src/preview.rs:129-185 | Field by field: the asset's own code and issuer, the amount, all claimants in order by destination and kind, the first match's verdict and derived window, the clawback bit; and an error exactly if the first match's predicate is refused, with that refusal |
| `ClaimPreviews.PreviewIsExact` | crates/stellar-agent-claimable/src/preview.rs:129-185 | That description allows one answer only |
| `ClaimPreviews.PreviewWindowHolds` | crates/stellar-agent-claimable/src/preview.rs:129-185 | The shown window holds every time at which the first match is satisfied |
| `ClaimPreviews.RefusalsExact` | crates/stellar-agent-claimable/src/preview.rs:194-281 | Which guard refuses, with which account, bounds, asset, amount and headroom |
| `ClaimPreviews.KindNamesExact` | crates/stellar-agent-claimable/src/preview.rs:129-185 | Each form of predicate, and no other, is shown by its name |
| `ClaimPreviews.GuardChainExact` | crates/stellar-agent-claimable/src/preview.rs:194-222 | Build and the three guards all succeed exactly when the first claimant for the account has a satisfied predicate and, for a non-native asset, the trustline exists, is authorized and has room |
| `ClaimPreviews.FirstMatchDecidesAlone` | crates/stellar-agent-claimable/src/preview.rs:129-185 | A later claimant entry for the same account never changes the outcome |
| `ClaimPreviews.FirstMatchExists` | crates/stellar-agent-claimable/src/preview.rs:129-185 | An account among the destinations has an earliest entry |
| `ClaimPreviews.HeadroomAgreesExactly` | crates/stellar-agent-claimable/src/preview.rs:248-281 | The saturating headroom test agrees with unbounded arithmetic if and only if not (the amount is the least 64-bit integer and limit - balance is below the range) |
| `ClaimPreviews.HeadroomDisagreesAtTheCorner` | crates/stellar-agent-claimable/src/preview.rs:248-281 | An input on which it disagrees |
| `BalanceIds.ParseAccepts` | crates/stellar-agent-claimable/src/id.rs:74-125 | An input parses to a hash if and only if, trimmed, it is the hash's strkey or, up to case, its 64- or 72-digit hex |
| `BalanceIds.AcceptedIsRendering` | crates/stellar-agent-claimable/src/id.rs:74-125 | Every accepted input is white space around one of the three renderings of its hash, up to the case of hex |
| `Text.SpacesExact` | crates/stellar-agent-claimable/src/id.rs:74-91 | The white space that trimming removes is the Unicode property White_Space, by code point |
| `BalanceIds.RenderingsRoundTrip` | crates/stellar-agent-claimable/src/id.rs:165-205 | Each of the three renderings of every hash, with any white space around it, parses back to it |
| `BalanceIds.OtherDiscriminantIsRefused` | crates/stellar-agent-claimable/src/id.rs:92-101 | A 72-character id that does not start with eight zeros is refused, never read as its last 64 digits; the long form is eight zeros and the short one |
| `BalanceIds.RefusalsExact` | crates/stellar-agent-claimable/src/id.rs:74-125 | Which refusal an input gets that is no strkey, by its characters, its length and its first eight digits |
| `Sessions.TokenCodec` | crates/stellar-agent-approval-remote/src/session.rs:62-81 | Exactly the 64-hex-digit strings are tokens, decoding inverts encoding, and a string decodes to a token exactly when it is its hex up to case |
| `Sessions.SessionCookieValue` | crates/stellar-agent-approval-remote/src/session.rs:188-199 | The scan finds the first session value among the header's pairs |
| `Sessions.PairValueExact` | crates/stellar-agent-approval-remote/src/session.rs:188-199 | A pair has a session value exactly if, white space aside, it is the session cookie's name, an equals sign and that value |
| `Sessions.FirstValueExact` | crates/stellar-agent-approval-remote/src/session.rs:188-199 | The value found is that of the first pair that has one |
| `Sessions.CookieRoundTrip` | crates/stellar-agent-approval-remote/src/session.rs:188-209 | The issued pair, sent among any other cookies, is the value found and decodes to its token |
| `Sessions.OtherNameIsForeign` | crates/stellar-agent-approval-remote/src/session.rs:188-199 | Any cookie with another name is passed over, whatever its value |
| `Sessions.IssuedPairIsFirst` | crates/stellar-agent-approval-remote/src/session.rs:207-209 | The issued header is the session pair followed by HttpOnly, Secure, SameSite=Strict and Path=/, and nothing else |
| `HostBinds.BindIsLabelSuffix` | crates/stellar-agent-anchor/src/ssrf.rs:108-128 | For all strings the host equals the domain or ends with a dot and the domain exactly when the domain's labels are a suffix of the host's |
| `HostBinds.BindIsTransitive` | crates/stellar-agent-anchor/src/ssrf.rs:108-128 | Acceptance is transitive through subdomains |
| `HostBinds.BindsAreNested` | crates/stellar-agent-anchor/src/ssrf.rs:108-128 | Two domains that accept the same host are one below the other |
| `HostBinds.AcceptedHostIsUnderDomain` | crates/stellar-agent-anchor/src/ssrf.rs:65-137 | For an anchor domain the check accepts exactly https URLs whose host, less one trailing dot, has the labels of a public name as its last; and which error it gives otherwise |
| `HostBinds.DirectUrlIsPublicName` | crates/stellar-agent-anchor/src/ssrf.rs:130-137 | Without an anchor domain it accepts exactly https URLs whose host, less one trailing dot, is a public name, and otherwise gives the direct-URL error |
| `HostBinds.ValidatorIsPublicName` | crates/stellar-agent-anchor/src/ssrf.rs:139-183 | The validator accepts exactly the public names: no IP address, at most 255 characters, at least two labels of 1 to 63 lowercase letters, digits and inner hyphens, and some label that is no number |
| `JsonIslands.IslandRoundTrip` | crates/stellar-agent-approval-ui/src/templates.rs:159-165 | For every JSON value the island holds no '<', '>' or '&' and reads back, by the grammar of RFC 8259, as that value |
| `JsonIslands.ThriceIsOnePass` | crates/stellar-agent-approval-ui/src/templates.rs:159-165 | The three replacements do not interfere: together they act once on each character |
| `JsonIslands.IslandIsSerialization` | crates/stellar-agent-approval-ui/src/templates.rs:159-165 | Rewriting the finished text is the same as escaping those characters while serializing: they occur only inside strings |
| `JsonIslands.SafeEscapeReads` | crates/stellar-agent-approval-ui/src/templates.rs:159-165 | Every character reads back as itself from the escape the island gives it, whatever follows, runs of backslashes included |
| `JsonIslands.EscapesExact` | crates/stellar-agent-approval-ui/src/templates.rs:159-165 | Exactly quotes, backslashes, control characters, '<', '>' and '&' are escaped, in two characters where JSON has a short form and else in six |
| `JsonIslands.CompactText` | crates/stellar-agent-approval-ui/src/templates.rs:159-165 | The serialized text has no white space but the spaces inside strings |
| `Hex.DecodeEncode` | crates/stellar-agent-core/src/hex.rs:61-111 | Decoding inverts encoding |
| `Hex.EncodeIsPositional` | crates/stellar-agent-core/src/hex.rs:61-90 | Each byte becomes its two lowercase hex digits in place, the high one first |
| `Hex.DecodeAccepts` | crates/stellar-agent-core/src/hex.rs:91-144 | The strict decoder accepts exactly an even number of characters from 0-9, a-f and A-F |
| `Hex.EncodeDecode` | crates/stellar-agent-core/src/hex.rs:91-111 | Encoding what was decoded loses only the case of the digits |
| `Hex.DigestDecoderIsStrictUnlessPlus` | crates/stellar-agent-core/src/approval/attest.rs:208-229 | On every text the digest decoder agrees with the strict one if and only if the text is not 64 characters, some pair is not acceptable to it, or no pair starts with a plus sign |
| `Hex.PlusIsAccepted` | crates/stellar-agent-core/src/approval/attest.rs:208-229 | A text of 64 characters, starting with a plus sign, that the digest decoder accepts and the strict one refuses |
| `Hex.PairsArePositional` | crates/stellar-agent-core/src/approval/attest.rs:208-229 | Each accepted pair gives its byte, a plus sign counting as no digit |

## Left out

- TLS, listeners, HTTP routing, response bodies, page rendering, watchers and notices.
- WebAuthn verification itself, ECDSA, SHA-256, HMAC, base64, the strkey checksum and the random source.
- Killing and restarting a process; a panic unwinds one handler only.
- The creation time, reason and passkey fields of an approval entry, and duplicate nonces in a tampered store file.
- The contents of the grant store, whose write appears by how it ends and by the grant it publishes; the sign-counter file and the key store, which appear only by whether they succeed.
- The balance id and the formatted amount that a claim preview repeats: the id's forms are those of `BalanceIds`.
- The number type of JSON beyond its text, and depth limits of JSON readers.
- Floating-point rounding of the token bucket: levels are real numbers.
- Toolset, SEP-6 and SEP-24 request building, contracts, command dispatch and build scripts: thin or easy.
- RemoteRuns.AttestedIsWhatWasChallenged: needs that the nonce was not inserted anew between the reading and the attestation, because an expired entry may be replaced under the same nonce.

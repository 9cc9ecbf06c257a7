# Verified models of the repository's protocols, ledgers and transformations

The modules below model the parts of the repository in which several steps, several processes or
several functions have to agree, and prove what they keep over every run. Code that changes things
step by step is an imperative class or loop proved against a specification function; the laws are
lemmas about those functions, over all inputs, all histories or all interleavings.

| file | what it models |
|---|---|
| `TokenBudget.dfy`, `TokenBudgetLaws.dfy` | the append-only reservation ledger, recomputed on every call |
| `AgentRunner.dfy` | the attempt loop that drives it while other runners make calls of their own |
| `Json.dfy`, `OutputSchema.dfy`, `OutputSchemaErrors.dfy`, `OutputSchemaReach.dfy` | the JSON tree; the schema projection handed to the provider, the validator, what it reports and when it raises, and for which schemas the projection is stricter |
| `Utf8.dfy`, `ContextPacket.dfy`, `PacketText.dfy` | byte-wise truncation, recursive bounding, the packet that states its own size, and reading its text back |
| `DualLoop.dfy`, `DualLoopPatch.dfy`, `DualLoopRoot.dfy` | the diff between desired and actual state, when it is a patch, and what it authorizes |
| `WakeLog.dfy`, `WakeLevels.dfy` | the wake-call claim table under interleaved ticks, and the T-10/T-5 level loop |
| `ScreenLease.dfy` | the single-use screen lease and its audit log |
| `Inbox.dfy`, `InboxHistories.dfy`, `InboxReplies.dfy` | mail ingest with its cursor and its failures, replies and nudges |
| `LaunchdSwap.dfy` | installing a launchd job with rollback |
| `LoopCleanup.dfy` | bounded deletion of finished runs and old releases |
| `AllocationLedger.dfy` | the allocation registry, its decision ledger and the budget pause |
| `TestCallLimit.dfy` | the rate limit on billed test calls |
| `Basics.dfy`, `Ordering.dfy` | shared datatypes and string order |

`dafny verify dfyconfig.toml` checks the whole project.

## What the code does not do

Where a property one would expect is false of the code, the model keeps the code, shows an input, and
proves exactly when the property does hold.

- `ingest.ts` calls itself idempotent (line 6). Replaying a committed batch changes a thread's
  subject when a message with a subject arrives before the message that names the inbox, and neither
  that one nor a later one has a subject: the schema requires an address, so `INSERT OR IGNORE`
  drops the thread row at first. `CrashReplayExactly` is the if-and-only-if for one crash, and
  `HistoriesExactly` the one for every history of failing runs. The model assumes the
  sqlite3 shell's default of not enforcing foreign keys; the schema file turns them on only for the
  connection that applies it.
- A queue line on which the loop of `ingest.ts` throws (the JSON value null, or a message with a numeric subject
  or a string as its recipients) makes every later run end with that exception before anything is committed:
  `ThrowingLineStopsForGood`.
- `_bounded` is not idempotent for negative item counts below the root, because a negative Python
  slice drops from the end each time: `BoundingIsIdempotent`.
- A claim made while the token column is missing is released unconditionally, so a release of it that is
  delivered twice can erase a later success: `SafeExactlyWithTokens`; delivered once, it is harmless:
  `UnrepeatedReleasesAreSafe`.
- `settle` accepts a second settlement of one event. What the runner relies on survives it exactly while
  no settlement raises an event that stands at zero: `SettlementsExactly`.
- A budgeted run does not always fall back after a transient failure, because each attempt reserves the whole
  pass budget: after a first attempt with unreported usage the second candidate is never launched, and the run
  exits 75 (`UnreportedUsageBlocks`). A candidate that the loop reaches is launched if and only if no nonzero
  charge stands in its pass and its day has room (`LaunchedExactly`), so every attempt that was followed by
  another was charged nothing, which only codex with fully cached usage can be (`FallbackOnlyAfterFreeCodex`).
- A row's path does not always lead back to its keys: a dot in a key splits it, and an empty root key
  leaves no trace in the paths below it. `DiffIsPatchExactly` says for which states the rows are a patch.
  Writing a null there removes what it finds and builds no dictionaries on the way, null and absent being the same.
- `reconcile` compares the fields scope and identity, yet a row of an accepted receipt can lead into them: its
  only row may be "scope.t", from a root key with a dot (`DottedKeyReachesScope`). `ReconcileReceipt` says
  exactly which rows do, that none does where the differing keys are addressable, and that the patch then
  leaves both fields as desired.
- An unsupported keyword inside a `const` can make the provider schema stricter. `ProjectionAcceptsExactly` is the
  condition for one accepted value, and `StricterExactly` the test on the schema alone: it decides which of its
  parts have a value at all.
- An expected argument that is empty, has white space at an end or a line break in it, or is a closing brace or the
  block header can not be read back from launchctl's print. An install that expects one never succeeds, even with
  a launchctl that works, and a job that has one never counts as restored: `ReadbackExactly`, `InstallOne`.

## Model

| member | source | states |
|---|---|---|
| TokenBudget.TokenBudgetLedger.ComputeCharges | runtime/agent-runner/token_budget.py:72-88 | the two passes over the ledger give one charge per allowed reservation, priced by its last settlement |
| TokenBudget.TokenBudgetLedger.SumPool | runtime/agent-runner/token_budget.py:120-125 | the loop adds up exactly the charges that fall into one pass or one owner's day |
| TokenBudget.TokenBudgetLedger.FindReservation | runtime/agent-runner/token_budget.py:164-171 | the backward search finds the most recent allowed reservation of an event, or nothing |
| TokenBudget.TokenBudgetLedger.ReserveTokens | runtime/agent-runner/token_budget.py:90-149 | a valid request appends exactly one row, allowed if and only if both pools still have room; an invalid one changes nothing |
| TokenBudget.TokenBudgetLedger.SettleTokens | runtime/agent-runner/token_budget.py:151-195 | a settlement of a reserved event appends one row and reports the recomputed totals; every other call changes nothing and says why |
| TokenBudgetLaws.ReservationAddsItsWeight | runtime/agent-runner/token_budget.py:72-88 | for any weighting of charges, one more reservation changes the sum over the whole ledger by its own weight, or by nothing when blocked |
| TokenBudgetLaws.SettlementReplacesWeight | runtime/agent-runner/token_budget.py:72-88 | a settlement, first or repeated, changes any such sum by the event's actual weight minus its current one, although every charge is recomputed |
| TokenBudgetLaws.RunSound | runtime/agent-runner/token_budget.py:90-195 | in every interleaving with distinct event ids, however often they are settled, allowed reservations have distinct ids and only reserved events carry settlements |
| TokenBudgetLaws.CallChangesSum | runtime/agent-runner/token_budget.py:90-195 | what one reserve or settle call does to any weighted sum of the recomputed charges |
| TokenBudgetLaws.RecomputedEqualsRunning | runtime/agent-runner/token_budget.py:111-149 | over every interleaving, the sums recomputed from the whole ledger equal constant-time running balances, for pass and daily pools alike, and the open reservations are the allowed unsettled ones |
| TokenBudgetLaws.ConsumedWithinLimit | runtime/agent-runner/token_budget.py:116-130 | a pool never exceeds its limit plus the total by which settlements overshot their reservations |
| TokenBudgetLaws.OneNonzeroCharge | runtime/agent-runner/agent_runner.py:1296 | because every reservation asks for the whole pass, a pass never holds more than one nonzero charge, for any interleaving of runners and any limits |
| TokenBudgetLaws.AllowedMeansAllZero | runtime/agent-runner/token_budget.py:116-130 | a whole-pass reservation is allowed only when every earlier charge of that pass is zero |
| TokenBudgetLaws.AllowedExactly | runtime/agent-runner/token_budget.py:116-130 | over every trace, a whole-pass reservation is allowed if and only if its pass holds no nonzero charge and its owner's day has room |
| TokenBudgetLaws.EarlierSettledAtZero | runtime/agent-runner/agent_runner.py:1360-1374 | between two allowed whole-pass reservations of one pass, whoever made them, the first was settled at exactly zero |
| TokenBudgetLaws.OneNonzeroWithoutRaises | runtime/agent-runner/token_budget.py:161-180 | events may be settled any number of times: a pass keeps at most one nonzero charge as long as no settlement raises an event that stands at zero |
| TokenBudgetLaws.NextSettlementExactly | runtime/agent-runner/token_budget.py:163-180 | after such a history, a settlement keeps the bound, whatever is reserved just before it, if and only if it does not raise an event from zero |
| TokenBudgetLaws.SettlementsExactly | runtime/agent-runner/token_budget.py:163-180 | over a whole history of distinct whole-pass reservations, every settlement keeps the bound if and only if none raises an event from zero |
| TokenBudgetLaws.SecondSettlementBreaksTheBound | runtime/agent-runner/token_budget.py:161-180 | a concrete ledger in which a second settlement of one event makes a second nonzero charge |
| AgentRunner.FreeOnlyWhenFullyCached | runtime/agent-runner/agent_runner.py:391-402 | an attempt is charged zero exactly when codex reported its whole, nonzero usage as cached; unreported usage is never free |
| AgentRunner.Interleave | runtime/agent-runner/agent_runner.py:1360-1374 | calls of other runners between two calls of this one extend the shared trace, and the ledger stays the run of that trace |
| AgentRunner.ReserveFor | runtime/agent-runner/agent_runner.py:1360-1374 | the ledger after a reservation is exactly the run of the trace, the others' calls and that reservation |
| AgentRunner.TryCandidate | runtime/agent-runner/agent_runner.py:1360-1374 | one budgeted candidate is launched exactly when its reservation is allowed, and the ledger is exactly the run of the trace with the others' calls, the reservation and, if launched, one settlement at the implied charge |
| AgentRunner.LaterAttemptMeansEarlierFree | runtime/agent-runner/agent_runner.py:1335-1374 | in a well-driven trace, any attempt that was followed by another one was charged zero |
| AgentRunner.SettledOncePerAttempt | runtime/agent-runner/agent_runner.py:1463-1476 | the trace holds exactly one settlement of an event for each attempt made under it, when nobody else settles that event |
| AgentRunner.FallbackOnlyAfterFreeCodex | runtime/agent-runner/agent_runner.py:391-402 | in a budgeted run every attempt but the last was a codex attempt whose usage was fully cached |
| AgentRunner.LaunchedExactly | runtime/agent-runner/agent_runner.py:1335-1374 | a candidate reached after transient attempts with time left is launched if and only if its reservation is valid, no nonzero charge stands in its pass where the trace is then, and its day has room |
| AgentRunner.UnreportedUsageBlocks | runtime/agent-runner/agent_runner.py:1360-1374 | from an empty ledger with no other runner, a transient first attempt without a usage report ends the run blocked before the second candidate |
| AgentRunner.AttemptLoop | runtime/agent-runner/agent_runner.py:1335-1584 | the attempts are a prefix of the candidates, only the last can succeed, all earlier ones were transient, the loop ends for exactly one of six reasons, and the ledger is exactly the run of the trace: per attempt one allowed reservation and one settlement, and at most a refused reservation after them |
| AgentRunner.EndInRawFields | runtime/agent-runner/agent_runner.py:1446-1584 | how the loop ended in the raw fields of the outcomes: selected exactly on return code zero in time with a fresh result that keeps its contract, stopped exactly on any other fresh result at return code zero or an error of no transient class, and every attempt before the last neither |
| AgentRunner.OnlyBlockedIsRefused | runtime/agent-runner/agent_runner.py:1360-1374 | a ledger that ends in this runner's refused reservation for the next candidate is left by a blocked loop and by no other |
| AgentRunner.RunAgent | runtime/agent-runner/agent_runner.py:1630-1632 | exit 0 exactly when the last attempt returned zero in time with a fresh result that keeps its contract, and the event was emitted; 75 exactly when the ledger ends in this runner's refused reservation for the next candidate; 2 exactly without candidates; every attempt before the last was one of the four transient failures without a fresh result at return code zero, and these are retried as long as a candidate, time and budget are left; the ledger's trace is exact, and every candidate reached is launched exactly when there is room for it |
| OutputSchema.CleanMeansUnchanged | runtime/agent-runner/agent_runner.py:254-271 | the projection leaves a JSON value alone exactly when no unsupported keyword occurs in it as a key |
| OutputSchema.CompatibleIsClean | runtime/agent-runner/agent_runner.py:254-271 | the projection leaves none of the five unsupported keywords anywhere, at any depth |
| OutputSchema.GetCompatible | runtime/agent-runner/agent_runner.py:254-271 | looking up a supported keyword in the projection gives the projected child; an unsupported one is gone |
| OutputSchema.ProjectedConstDiffers | runtime/agent-runner/agent_runner.py:254-271 | a value that equals a const with an unsupported key does not equal the projected const |
| OutputSchema.ProjectionAcceptsExactly | runtime/agent-runner/agent_runner.py:725-768 | a value the original schema accepts is accepted by the projection if and only if validating it compares it with no const that has an unsupported key, outside dropped properties |
| OutputSchema.ProjectionNeverStricter | runtime/agent-runner/agent_runner.py:725-768 | for every schema, the projection is never stricter if and only if no accepted value meets such a const |
| OutputSchema.CleanConstsAreNeverMet | runtime/agent-runner/agent_runner.py:725-768 | a schema whose reachable consts have no unsupported key meets none, for any value |
| OutputSchema.ProjectionSameErrors | runtime/agent-runner/agent_runner.py:725-768 | when moreover no property is named by an unsupported keyword, original and projection give the same error list in the same order |
| OutputSchema.DirtyConstIsStricter | runtime/agent-runner/agent_runner.py:254-271 | with an unsupported key inside a const the projection rejects a value the original accepts |
| OutputSchemaErrors.FaultsExactly | runtime/agent-runner/agent_runner.py:725-768 | for every value and every schema a dict can hold, the validator reports an error if and only if the error's path leads, through properties and items of the right type, to a part of the value that has that fault |
| OutputSchemaErrors.RaisesExactly | runtime/agent-runner/agent_runner.py:725-768 | it raises if and only if some part that such a path reaches meets a schema that cannot be used |
| OutputSchemaErrors.ObjectErrorsInOrder | runtime/agent-runner/agent_runner.py:755-762 | an object's errors in order: its const, its missing keys as listed, then those of each property in the schema's order |
| OutputSchemaErrors.ArrayErrorsInOrder | runtime/agent-runner/agent_runner.py:763-768 | an array's errors in order: its const, its length, then those of each item |
| OutputSchemaReach.FitsExactly | runtime/agent-runner/agent_runner.py:725-768 | acceptance without error paths is the empty error list, at every path |
| OutputSchemaReach.TypeTable | runtime/agent-runner/agent_runner.py:728-754 | which type names accept which values: a boolean is neither integer nor number, and an unknown name asks for nothing |
| OutputSchemaReach.ObjectAccepted | runtime/agent-runner/agent_runner.py:725-768 | an object is accepted exactly for its type, its const, all its required keys, and each property it has, at that property's path |
| OutputSchemaReach.ArrayAccepted | runtime/agent-runner/agent_runner.py:725-768 | an array is accepted exactly for its type, its const, its least length, and each item under an object schema, at that item's path |
| OutputSchemaReach.AlikeFits | runtime/agent-runner/agent_runner.py:725-768 | the validator accepts equal values alike, whatever the order of their keys |
| OutputSchemaReach.InhabitedExactly | runtime/agent-runner/agent_runner.py:725-768 | a computable test on a schema says whether the validator accepts any value at all |
| OutputSchemaReach.StricterExactly | runtime/agent-runner/agent_runner.py:254-271 | a computable test on a schema says whether the projection rejects some accepted value: in both directions, for every schema |
| Utf8.DecodeEncodedChar | runtime/agent-runner/context_packet.py:14-20 | decoding the first character of an encoded character followed by any bytes gives that character and its length |
| Utf8.DecodeEncoded | runtime/agent-runner/context_packet.py:14-20 | decoding the UTF-8 form of any string gives the string back |
| Utf8.CutDecodesToFitting | runtime/agent-runner/context_packet.py:14-20 | cutting the encoding at any byte and ignoring errors keeps exactly the whole characters that fit |
| Utf8.FittingIsLongest | runtime/agent-runner/context_packet.py:14-20 | those characters are the longest prefix within the room |
| Utf8.TruncateShape | runtime/agent-runner/context_packet.py:14-20 | a cut string is the longest fitting code-point prefix plus the ellipsis, in at most max(limit, 3) bytes, and decodes from valid UTF-8 (section 3 of RFC 3629) |
| Utf8.TruncateFixedPoints | runtime/agent-runner/context_packet.py:14-20 | truncation is idempotent, and the strings it leaves alone are the short ones and, below three bytes, the bare ellipsis |
| ContextPacket.WithinIsFixed | runtime/agent-runner/context_packet.py:23-52 | with nonnegative counts, the values within the limits are exactly the ones bounding leaves alone |
| ContextPacket.BoundedIsWithin | runtime/agent-runner/context_packet.py:23-52 | with nonnegative counts, what bounding returns is within the limits at every level |
| ContextPacket.FirstItemsAreKept | runtime/agent-runner/context_packet.py:23-40 | a bounded list holds the first list_items items, or all but the last few for a negative count, each bounded in its place; it fails exactly when one of those is nested too deep |
| ContextPacket.FirstFieldsAreKept | runtime/agent-runner/context_packet.py:41-51 | the same for the fields of a dictionary, with their names and in their order |
| ContextPacket.BoundingIsIdempotent | runtime/agent-runner/context_packet.py:23-52 | bounding twice equals bounding once for every JSON document if and only if the depth is at most 0 or no item count is negative |
| ContextPacket.NegativeListCountLosesItems | runtime/agent-runner/context_packet.py:33-43 | with a negative list count (a Python slice that drops from the end) some list loses items again on the second pass |
| ContextPacket.NegativeMapCountLosesFields | runtime/agent-runner/context_packet.py:44-51 | with a negative map count some dictionary of distinct keys loses keys again on the second pass |
| ContextPacket.ObjectSize | runtime/agent-runner/context_packet.py:55-61 | the encoded size of an object is the sizes of its fields plus braces and commas, whatever order the keys are sorted into |
| ContextPacket.PacketSize | runtime/agent-runner/context_packet.py:84-104 | the encoded size of a packet is a base that does not depend on the metrics plus the digits of the two metric numbers |
| ContextPacket.DigitsGrowByOne | runtime/agent-runner/context_packet.py:104-112 | adding twice its digit count to a number adds at most one digit |
| ContextPacket.SizeSettles | runtime/agent-runner/context_packet.py:104-112 | the self-referential size never shrinks from round to round and is a fixed point from the third round on, for every base |
| ContextPacket.RepeatedSizeIsSettled | runtime/agent-runner/context_packet.py:106-110 | leaving the loop early leaves it at that same fixed point |
| ContextPacket.BuildPacket | runtime/agent-runner/context_packet.py:64-118 | the eight-round loop ends on the fixed point, the stabilization error is never returned, each other error has its exact cause, and a built packet holds the first fields, each bounded in its place, counts them, and is as long as its byte_count says, within max_bytes |
| ContextPacket.BuiltPacketSerializes | runtime/agent-runner/context_packet.py:121-126 | serialize_packet accepts every packet at its settled size |
| PacketText.SortedFields | runtime/agent-runner/context_packet.py:55-61 | sorting the keys keeps every field and leaves them in code-point order |
| PacketText.TextReadsBack | runtime/agent-runner/context_packet.py:55-61 | the compact text of any document reads back, by a reader of JSON (sections 2 to 7 of RFC 8259), as that document with its keys sorted, and nothing is left over |
| PacketText.PacketReadsBack | runtime/agent-runner/context_packet.py:121-126 | the bytes of a packet decode and read back as the packet |
| Ordering.LessExactly | runtime/agent-runner/context_packet.py:55-61 | strings are ordered by the code points at their first difference, or by length when there is none |
| DualLoop.ComputeDifferences | marketing/engine/dual_loop.py:22-43 | the loop over the sorted union of keys, recursing into dictionaries, produces the specified rows in order |
| DualLoop.ConvergedMeansAgreement | marketing/engine/dual_loop.py:62-72 | there are no rows exactly when the states agree, absent and null identified at every level |
| DualLoopPatch.RowsAreChanges | marketing/engine/dual_loop.py:22-43 | the rows are exactly the differing key paths in order, each at the dotted text of its keys |
| DualLoopPatch.ChangeShowsBothSides | marketing/engine/dual_loop.py:29-41 | a row holds what the two states have at its keys, where they differ and are not both dictionaries |
| DualLoopPatch.ChangesSorted | marketing/engine/dual_loop.py:29-41 | the rows come in the code-point order of their keys, level by level |
| DualLoopPatch.PathLeadsHomeExactly | marketing/engine/dual_loop.py:30 | a row's text splits into its own keys if and only if no key has a dot and an empty root key has nothing below it |
| DualLoopPatch.ChangesPrefixFree | marketing/engine/dual_loop.py:22-43 | no differing key path is a prefix of another, whatever the keys are |
| DualLoopPatch.PathsPrefixFree | marketing/engine/dual_loop.py:22-43 | where the differing keys are addressable, no row's path is a prefix of another's, so paths are distinct |
| DualLoopPatch.FlatExactly | marketing/engine/dual_loop.py:22-43 | below a named key, writing the rows gives the desired dictionary if and only if no differing key path has a dot |
| DualLoopRoot.NeverComesRight | marketing/engine/dual_loop.py:30 | two differing dictionaries under an empty root key never come to agree, whatever rows with leading dots are written back into them |
| DualLoopRoot.DiffIsPatchExactly | marketing/engine/dual_loop.py:22-43 | for all states: writing each row's desired value at its path into the actual state gives the desired state if and only if every differing key path is free of dots and does not go on below an empty root key |
| DualLoopRoot.DottedKeyBreaksThePatch | marketing/engine/dual_loop.py:30 | for any key with a dot and any value but null, the one-key state is not reached by its own diff |
| DualLoopRoot.RowLeadsInto | marketing/engine/dual_loop.py:30 | a row's path leads into a field exactly when the first named key of the row is that field or continues it after a dot |
| DualLoopRoot.PatchAt | marketing/engine/dual_loop.py:22-43 | what the patch leaves at a key is what was there, written over by exactly the rows that lead through it |
| DualLoopRoot.ReconcileReceipt | marketing/engine/dual_loop.py:46-72 | an accepted receipt is converged exactly on agreement; which of its rows lead into scope or identity is decided by their first named key, none does where the keys are addressable, and the patch then leaves both fields as desired |
| DualLoopRoot.DottedKeyReachesScope | marketing/engine/dual_loop.py:46-72 | for a root key "scope." with any dot-free rest and any value but null, the reconciliation is accepted and its only row writes into scope |
| DualLoop.AuthorizedExactly | marketing/engine/dual_loop.py:75-94 | exactly one strategy mutation is authorized exactly from agreement of the two states and a scorable reward, and never a reconciliation mutation |
| WakeLog.WakeStore.ClaimWake | apps/rockstar_ibot/scheduler.js:122-146 | a claim inserts the row under the unique key and returns its identity, or none without the token column; a taken key is refused |
| WakeLog.WakeStore.ReleaseWake | apps/rockstar_ibot/scheduler.js:162-172 | a release deletes the row only when it still carries the claim's token; a claim without identity deletes unconditionally |
| WakeClaims.RunKeepsInv | apps/rockstar_ibot/scheduler.js:807-821 | over every interleaving of abandoned ticks and of late releases, also while the column appears, rows carry their owner's identity and every unreleased claim owns its row |
| WakeClaims.UnrepeatedReleasesAreSafe | apps/rockstar_ibot/scheduler.js:162-172 | whichever claims were made without the token column, nothing rings twice and no step removes another claim's row, unless the release of a claim without identity is delivered again |
| WakeClaims.TokensMakeRunsSafe | apps/rockstar_ibot/scheduler.js:486-527 | with tokens, also for late and repeated releases, at most one claim per key is dialing or has rung, and no step removes a row other than its own claim's |
| WakeClaims.ReleasedKeyIsClaimable | apps/rockstar_ibot/scheduler.js:149-153 | a failed dial does not burn its slot: after its release the key can be claimed and dialed again |
| WakeClaims.DegradedClaimsRingTwice | apps/rockstar_ibot/scheduler.js:134-143 | one claim made without the token column is enough: its release delivered twice erases a later ring, tokened or not, and the next tick rings again |
| WakeClaims.SafeExactlyWithTokens | apps/rockstar_ibot/scheduler.js:155-161 | every run rings each key at most once if and only if no claim was made without the token column |
| WakeLevels.DueCases | apps/rockstar_ibot/scheduler.js:460-462 | the filter and sort over the two levels give T-5 then T-10, T-10 alone, or nothing, with the exact cut-offs |
| WakeLevels.WakeEvent | apps/rockstar_ibot/scheduler.js:486-527 | one pass of the level loop dials at most the most urgent due level, keeps its row only on success, and claims every coarser due level uncalled |
| WakeLevels.WakeUser | apps/rockstar_ibot/scheduler.js:449-528 | a tick over a user's events extends the history of rows and calls by exactly its sightings |
| WakeLevels.RowsMeanRings | apps/rockstar_ibot/scheduler.js:486-527 | for arbitrarily moving estimates, between ticks the T-5 row exists exactly when a T-5 dial succeeded, and the T-10 row exactly when a T-10 dial succeeded or T-5 was due |
| WakeLevels.NeverBackToCoarser | apps/rockstar_ibot/scheduler.js:494-497 | T-10 never dials after a sighting in which T-5 was due, and no level dials again after it rang |
| WakeLevels.CallsExactly | apps/rockstar_ibot/scheduler.js:449-528 | over every history, a sighting in the last five and a half minutes rings T-5 unless a T-5 call was answered, one before that and within ten and a half rings T-10 unless a T-10 call was answered or the event was seen as urgent, and no other rings |
| ScreenLease.ScreenControl.ApproveHandoff | runtime/loop/screen_control.py:138-164 | an approval is stored and logged, or refused with its exact reason and nothing changed |
| ScreenLease.ScreenControl.RevokeHandoff | runtime/loop/screen_control.py:167-181 | a revocation clears and logs, or is refused for another loop's lease |
| ScreenLease.ScreenControl.StartRun | runtime/loop/screen_control.py:201-233 | a start consumes exactly a live approval of that loop and turns it into a running lease with the same expiry |
| ScreenLease.ScreenControl.FinishRun | runtime/loop/screen_control.py:288-297 | finishing clears the state file only when it still holds this run's lease, and always logs one terminal row |
| ScreenLease.PollLoop | runtime/loop/screen_control.py:252-269 | the polling loop stops at the first reading that ends the run and reports that reading's event and exit code |
| ScreenLease.TimeoutCoversLease | runtime/loop/screen_control.py:220 | the timeout handed to the child covers the rest of the lease by less than a second |
| ScreenLeaseLaws.RunKeepsInv | runtime/loop/screen_control.py:138-297 | over every interleaving of approve, revoke, start, poll, interrupt and finish by any number of controllers, the audit log, the state file and the controllers stay consistent |
| ScreenLeaseLaws.AuditIsExact | runtime/loop/screen_control.py:214-297 | each approval starts at most one run, each run is logged as started once, and has exactly one terminal row once finished |
| ScreenLeaseLaws.StartsFollowTheirApproval | runtime/loop/screen_control.py:209-232 | over every interleaving, each start in the audit log follows an approval of its own loop under the same id, before that approval expires, with no revocation and no other approval in between |
| ScreenLeaseLaws.ApprovalsWereAskedFor | runtime/loop/screen_control.py:138-164 | each approval in the log was asked for with its loop, id and clock, and lasts for exactly the seconds asked for |
| ScreenLeaseLaws.RevocationEndsTheRun | runtime/loop/screen_control.py:167-181 | after a revocation that is not refused no run there was ever owns the lease again, whatever happens, and a poll of a child that has not exited ends it as revoked |
| ScreenLeaseLaws.LostLeaseStaysLost | runtime/loop/screen_control.py:259-263 | a run that lost the stored lease never owns it again |
| ScreenLeaseLaws.FinishClearsOnlyItsOwnLease | runtime/loop/screen_control.py:288-297 | a finish that changes the state file clears the lease the run itself wrote, which was there at every moment in between |
| ScreenLeaseLaws.SurvivorOwnsLiveLease | runtime/loop/screen_control.py:252-269 | a child left alive by a poll owned the stored, unexpired lease at that poll |
| ScreenLeaseLaws.OneSurvivorPerRound | runtime/loop/screen_control.py:252-269 | a round of polls without a transition leaves at most one child alive: the stored run's |
| Inbox.BuildScript | runtime/agentmail/ingest.ts:60-75 | the cursor-driven loop turns exactly the accepted unread lines into statements, or stops on a line that throws |
| Inbox.StatementsByLine | runtime/agentmail/ingest.ts:60-75 | each message becomes one statement, at its place in the queue, with its own timestamp in all three places or the clock's three answers |
| Inbox.MailStore.RunStatement | runtime/agentmail/ingest.ts:71-73 | the three SQL statements of one message insert or stamp its thread, fill a null subject, and insert the message once |
| Inbox.MailStore.RunScript | runtime/agentmail/ingest.ts:83-84 | the transaction runs all statements in order |
| Inbox.MailStore.Ingest | runtime/agentmail/ingest.ts:60-91 | one run with its four ends: nothing committed, committed without the cursor, or committed with the cursor at the end of the queue |
| InboxReplay.ScriptInTwo | runtime/agentmail/ingest.ts:60-75 | timestamped lines give the same statements whatever the clock, the run and the batch boundary |
| InboxReplay.ThreadsOneByOne | runtime/agentmail/ingest.ts:71-72 | a thread's row depends only on that thread's messages, in their order |
| InboxReplay.ThreadReplay | runtime/agentmail/ingest.ts:71-72 | replaying a thread's batch changes its row if and only if the thread is new and the batch has a subject before the message naming the inbox and none from that message on |
| InboxReplay.BatchReplay | runtime/agentmail/ingest.ts:60-90 | replaying a whole committed batch leaves all tables alone if and only if no thread's batch has that shape |
| InboxReplay.CrashReplayExactly | runtime/agentmail/ingest.ts:60-90 | after a crash between commit and cursor write, re-running over any extended timestamped queue gives the tables of a single run if and only if no thread's batch has that shape |
| InboxReplay.CutsDoNotMatter | runtime/agentmail/ingest.ts:60-91 | however a timestamped queue is cut into completed runs, the tables are those of one run |
| InboxReplay.SubjectBeforeInboxIsLost | runtime/agentmail/ingest.ts:71-72 | a concrete two-message batch whose replay adds a subject the first run had dropped |
| InboxHistories.HistoryHolds | runtime/agentmail/ingest.ts:60-91 | for any sequence of runs over a growing timestamped queue, each of which may fail at the database or at the cursor write, the tables are those of one run over the lines taken, when every new thread opens with its subject |
| InboxHistories.HistoriesExactly | runtime/agentmail/ingest.ts:60-91 | and only then: otherwise some history of runs leaves other tables; the condition, for any queue and over its lines before the first that throws, is that a new thread's first message naming an inbox has a subject or no earlier one of the thread has |
| InboxHistories.ThrowingLineStopsForGood | runtime/agentmail/ingest.ts:61-73 | a queue line on which the loop throws is never passed: no later line is ever taken, whatever the runs |
| InboxReplies.RunReplies | runtime/agentmail/replier.ts:207-270 | the loop over pending messages commits, for each one sent, its outbound row and the reset waiting row |
| InboxReplies.RunNudges | runtime/agentmail/nudge.ts:117-145 | the loop over eligible threads commits, for each one sent, its outbound row and the incremented count |
| InboxReplies.AnsweredExactlyWhenIdIsNew | runtime/agentmail/replier.ts:262-269 | a sent reply marks its message answered exactly when its outbound id was not in the table yet |
| InboxReplies.NothingPendingAfterwards | runtime/agentmail/replier.ts:142-157 | when every selected message was sent, none of them is pending any more: a re-run without new mail does nothing |
| InboxReplies.HistoryKeepsInv | runtime/agentmail/nudge.ts:61-80 | over any history of ingest, reply and nudge runs, answers stay unique and nudge counts match the history |
| InboxReplies.OneAnswerAndExactCounts | runtime/agentmail/nudge.ts:137-143 | every inbound message has at most one answer, and each count equals the nudges since the last reply and never exceeds the maximum |
| LaunchdSwap.LoadedArguments | runtime/loop/lm_loop_apply.py:169-179 | the flag-driven scan over the stripped lines of a text returns those of the first argument block |
| LaunchdSwap.StripExactly | runtime/loop/lm_loop_apply.py:172 | stripping a line takes away white space at its two ends, and all of it |
| LaunchdSwap.LineEndings | runtime/loop/lm_loop_apply.py:171 | a line ends at a line feed, at a carriage return and line feed taken together, or at a carriage return alone |
| LaunchdSwap.FirstBlockIsRead | runtime/loop/lm_loop_apply.py:169-179 | for any text, the first header opens the block and the next brace or the end closes it; blank lines and repeated headers in it are left out |
| LaunchdSwap.PrintedIsShown | runtime/loop/lm_loop_apply.py:169-179 | what is read back depends on the printed arguments alone: not on the text around them, nor on how they are indented |
| LaunchdSwap.ReadbackExactly | runtime/loop/lm_loop_apply.py:169-179 | reading back a printed job, raw lines and all, gives its arguments if and only if each is one line, equal to its own strip, not empty, and neither brace nor block header |
| LaunchdSwap.Preserve | runtime/loop/lm_loop_apply.py:150-166 | the merged plist takes the preserved keys from the old one, everything else from the new one, and merges environments with new values winning |
| LaunchdSwap.HonestWorks | runtime/loop/lm_loop_apply.py:182-225 | the hypotheses of InstallOne can be met: by any launchctl that loads what the plist says and prints each argument on a line of its own |
| LaunchdSwap.Attempt | runtime/loop/lm_loop_apply.py:202-210 | one attempt: the exact calls and answers, kept only after a print that reads back as the expected arguments, booted out otherwise |
| LaunchdSwap.PutBackJob | runtime/loop/lm_loop_apply.py:218-222 | the restoring bootstrap and print, which count exactly when the print succeeds and reads back as the old arguments |
| LaunchdSwap.TalkInPlainAnswers | runtime/loop/lm_loop_apply.py:200-225 | in plain answers: a kept round is the last one, each before it was refused or read back differently, without one all attempts are made; the old job is back when none was loaded or when bootstrap and print succeed and its arguments are read back |
| LaunchdSwap.InstallOne | runtime/loop/lm_loop_apply.py:182-225 | for every launchctl: the exact conversation and the outcome it implies, the new plist after success and the old one byte for byte after failure, success only for arguments that can be read back; for a truthful launchctl the reported arguments are the loaded ones, before and after a rollback, and for one that works success and restoration hold exactly when the arguments can be read back |
| LoopCleanup.Store.Scan | runtime/loop/loop_cleanup.py:64-79 | the scan counts the eligible entries, preserves the shielded ones, and ranks every candidate by the number of newer ones, ties by path |
| LoopCleanup.Store.Delete | runtime/loop/loop_cleanup.py:41-46 | one delete and its counters, for each way it can fail |
| LoopCleanup.Store.CleanupRuns | runtime/loop/loop_cleanup.py:54-89 | for any pattern of delete failures: evaluated = preserved + removed + errors, errors are the unreadable entries and the condemned whose delete failed, the tally and the reclaimed bytes are those of the deleted entries, and what goes is exactly the condemned; when no delete fails, the newest max_runs within the age limit stay |
| LoopCleanup.Store.GcReleases | runtime/loop/loop_cleanup.py:102-135 | the same for releases; when no delete fails, the newest `keep` by modification time stay, ties by path, whatever their age |
| LoopCleanup.RankIsIndex | runtime/loop/loop_cleanup.py:79 | in newest-first order an entry's index is the number of newer candidates |
| LoopCleanup.KeptAreNewer | runtime/loop/loop_cleanup.py:78-83 | whatever goes was modified before everything that stays, unless it is past the age limit; on equal times its path comes first |
| LoopCleanup.HowManySurvive | runtime/loop/loop_cleanup.py:78-83 | as many candidates survive as are within the age limit, up to the number to keep |
| LoopCleanup.PassKeepsTheNewest | runtime/loop/loop_cleanup.py:78-89 | both together for a pass without failing deletes, in the entries' own fields |
| LoopCleanup.CondemnedAreTheRest | runtime/loop/loop_cleanup.py:125-128 | without an age limit the condemned are exactly the tail beyond `keep` |
| LoopCleanup.ShieldedSurvive | runtime/loop/loop_cleanup.py:72-74 | a pass never removes an active or protected directory, nor one that is not eligible, whatever deletes fail |
| LoopCleanup.SecondPassRemovesNothing | runtime/loop/loop_cleanup.py:79-89 | without failures the surviving candidates are exactly the uncondemned, and a second pass at the same time removes nothing |
| AllocationLedger.ValidExactly | bin/ceo_run.py:43-74 | the list of reasons is empty exactly for an admissible allocation of a known loop |
| AllocationLedger.NoReasonsMeans | bin/ceo_run.py:170-185 | an evaluation gets no reasons exactly when all its decisions are acceptable and no loop is decided twice |
| AllocationLedger.CeoStore.ApplyDecision | bin/ceo_run.py:77-120 | an accepted decision changes the registry and appends one row; any refusal or failed registry write changes nothing |
| AllocationLedger.CeoStore.ApplyEvaluation | bin/ceo_run.py:153-209 | a rejected evaluation changes nothing; an accepted one installs every decision and its weekly row, or, at the first failed write, exactly the decisions before it |
| AllocationLedger.SumCosts | lib/ceo_budget.py:39-70 | the loop sums exactly the counting rows of the loop in the current month and week |
| AllocationLedger.SpentByRow | lib/ceo_budget.py:39-70 | one more cost row adds its amount to the month and the week it falls in when it has an amount and a time, and nothing otherwise |
| AllocationLedger.CeoStore.CheckLoop | lib/ceo_budget.py:73-149 | a hard breach pauses an active, unpaused loop and logs one row, a soft one only warns, and nothing else changes |
| AllocationLedgerLaws.EvaluationInstallsEverything | bin/ceo_run.py:187-199 | after an accepted evaluation each decided loop holds its decision and no other loop changed |
| AllocationLedgerLaws.InstallsLeaveRows | bin/ceo_run.py:187-199 | each installed decision leaves its row in the ledger, in the order of the decisions |
| AllocationLedgerLaws.PausedSince | lib/ceo_budget.py:118-128 | a loop is paused from its breach row on until an un-pausing change |
| AllocationLedgerLaws.LedgerExplainsRegistry | bin/ceo_run.py:106-120 | over any operations, whichever registry writes fail, replaying the ledger over the initial registry gives the registry, and two breach rows of a loop have an un-pausing change between them |
| TestCallLimit.Limiter.TestCallAllowed | apps/rockstar_ibot/server.js:414-427 | the answer and the log after one request: only a permitted call prunes and extends the log |
| TestCallLaws.AnswerIsRule | apps/rockstar_ibot/server.js:415-421 | on any ascending history the answer from the recent entries is the plain rule: none in ten minutes, fewer than five within a day |
| TestCallLaws.RetryAfterEndsTheCooldown | apps/rockstar_ibot/server.js:417-419 | during the cooldown the answer is the least number of whole seconds that ends it |
| TestCallLaws.PruningChangesNoAnswer | apps/rockstar_ibot/server.js:414-427 | for every clock that never goes back, the answers from the pruned log equal those from the full history, user by user |
| TestCallLaws.LetThroughIsFullHistory | apps/rockstar_ibot/server.js:414-427 | for every clock that never goes back, the calls let through by the answers from the pruned log are those the plain rule permits on the full history |
| TestCallLaws.CallsAreBounded | apps/rockstar_ibot/server.js:411-412 | the calls the limiter lets through to one user are at least ten minutes apart, and no day-long window holds more than five |

## Left out

- InboxHistories.HistoriesExactly: runs do not overlap, and a line is seen whole or not at all.
- InboxReplies.RunReplies: the addresses, subject and text of an outgoing mail are given, not composed; a skipped or failed send is an absent entry.
- InboxReplies.OneAnswerAndExactCounts: runs do not overlap, outbound ids are new, and each send is committed; a crash between sending and committing is not modelled.
- Inbox.MailStore.Ingest: a failing sqlite3 run commits nothing here; the shell without `-bail` goes on after a failed statement and can commit the rest while exiting with an error.
- Utf8.TruncateShape: strings are sequences of Unicode scalar values; a Python string may also hold lone surrogates, on which encoding to UTF-8 raises.
- WakeClaims.TokensMakeRunsSafe: claim tokens are assumed never to repeat, as random UUIDs are.
- WakeLevels.RowsMeanRings: ticks do not overlap and every store operation succeeds; the overlapping case is WakeClaims.
- ScreenLeaseLaws.AuditIsExact: approval and run ids are assumed new; a controller that is killed outright is one that takes no further step, so its run has no terminal row.
- TokenBudgetLaws.RecomputedEqualsRunning: event ids are distinct and settled once, and calls are atomic under the file lock.
- OutputSchema.ProjectionAcceptsExactly: numbers are integers, Python's equality of booleans and integers is not modelled, and a minItems given as a string counts as an exception.
- ContextPacket.BuildPacket: floats and non-string dictionary keys are not modelled; values of unsupported types are not JSON values.
- LaunchdSwap.InstallOne: reading and writing the plist file always succeeds, delays are dropped, and the merged plist is any function of the old file (Preserve is that function on parsed plists); a failing launchctl run is one that returns a nonzero code.
- LoopCleanup.Store.Delete: a directory renamed to trash whose removal failed is gone here; in the file system it stays under its new name, and a run may keep the markers that list it again in a later pass.
- LoopCleanup.Store.CleanupRuns: which entries are marked, active, protected or valid is given per entry.
- AllocationLedger.CeoStore.ApplyEvaluation: validate_allocation_policy is any function of loop and status for one snapshot (lib/ceo_unit_economics.py is not part of this model); appending to the ledger succeeds once the registry write did.
- AllocationLedger.SumCosts: amounts are real numbers without rounding, and the period keys of each cost row are given.
- TestCallLimit.Limiter.TestCallAllowed: times are integers of milliseconds.
- Token days: the calendar day a reservation belongs to is a given string (token_budget.py:20-31).
- The rest of the scheduler (reminders, travel, late notices, the missed-wake ledger) and of the server: they call modules whose behaviour is elsewhere.
- Provider processes, HTTP, Supabase, telephony and language models: outcomes are parameters of the models.
- Text of errors, logs and prompts, and audit fields nothing reads back; torn writes inside one JSON line.
- Evidence reclamation, usage grouping, plist and schedule rendering, streaks, alert suppression and message splitting: they would only add easier members.
- Slack result markers: removing one marker can splice together another, so there is no clean law to state.

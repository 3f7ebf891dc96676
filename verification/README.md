# A verified model of the multi-tenant data engine

The engine keeps tenants' records, meters what they consume, numbers their documents, sends
their events and decides what their users may see. This project models the parts of it that
are protocols or algorithms, and proves what every run, every interleaving or every input of
them keeps.

- **Token quotas** (`Quota`, `QuotaAccounting`, `QuotaCeiling`, `QuotaExactness`,
  `QuotaSafety`, `QuotaService`, `ReservationIds`). Reservations are a state machine over a counter and a
  ticket store shared by any number of reserve requests, reconcile requests and sweep visits.
  Each store call is one event; events interleave freely; a call may fail, or apply and lose
  its answer; a crashed process is given no further event. `QuotaService` holds the requests as
  code over mutable stores and proves that each of them is a run of that machine.
- **Outbox** (`Outbox`, `OutboxEmitter`). One stored event with its emitters and its watchdog
  as a state machine, and the emitter as code that makes exactly those calls.
- **Principals** (`PrincipalGraph`, `PrincipalPerimeters`). Two graph searches on possibly
  cyclic graphs, each against a definition of reachability that knows no search, and the
  perimeters that come out of them.
- **Document numbering** (`SequenceCodes`, `Sequences`, `Generator`). Counter keys, printed
  codes, the choice of a counter, and the generator that feeds it.
- **Codecs and trees** (`Base64`, `Pagination`, `Tokens`, `Bytes`, `Frames`, `Crc32`,
  `LittleEndian`, `MbfInspect`, `MbfEnvelope`, `JsonMerge`, `Locales`, `CloneIndex`). Paging
  cursors and the walk along them, session tokens across two languages, gRPC-Web frames, the
  container the engine writes and the script that checks it, the merge of locale files, the
  clone detector.

`dafny verify dfyconfig.toml` checks everything. Clocks, random numbers, store answers, the
MAC, JSON printing and parsing, and UTF-8 decoding are parameters.

## What the proofs say against the documentation

Where the code and what is written about it disagree, the model follows the code.

- `docs/04-componentes/10-quota.md` and the trait comment in `src/quota/ledger.rs` promise that
  a debit is granted only if the resulting usage stays within the limit. The ledger looks at the
  usage before the debit. The ceiling holds exactly when every granted debit fits
  (`CeilingHoldsExactlyWhenGrantsFit`); for all runs it holds up to the largest estimate
  (`CeilingWithSlack`); one debit breaks it (`CeilingIsExceeded`).
- The same document promises one adjustment whichever of client and sweep comes first. The
  ledger key does make the counter move once, but both sides take "already applied" for their
  own success. That does harm in exactly two situations, which can be told before the call
  (`CallIsSafeExactly`, `RunIsSafeExactly`): a charge is lost or made twice
  (`LostChargeHappens`, `DoubleChargeHappens`). Live leases and a one-step sweep would rule both
  out (`LeasesAndOneStepSweepsSuffice`).
- The comment at `src/eda/moira.rs:164` calls the claim atomic. It is a read and an
  unconditional write, so DELIVERED can be left
  (`DeliveredIsFinalExactly`, `OverlappingClaimsLeaveDelivered`). It looks at the status alone, so
  an exhausted event can be sent again (`ExhaustedIsFinalExactly`, `StaleFetchExceedsRetries`).
- The outbox query limit comes before the retry filter, so a hundred permanently failed events
  can hide one that is due (`FailedEventIsSeenForSure`).
- The engine names its checksum CRC32C (`src/mbf/format/mod.rs:97`) but computes plain CRC-32, and
  that is what makes the Python script accept what the engine writes (`InspectAcceptsEnvelope`).
- Two numbers of one counter can print alike once a prefix is lengthened by digits other than
  zeros (`CodesMeetExactly`), and two names with colons can share a counter
  (`NamesShareKeyExactly`).
- A cursor with limit zero never ends its walk while rows are left (`WalkEndsExactly`).
- A frame cut inside its payload is delivered short (`CutPayloadIsSilent`).

## Model

| member | source | states |
|---|---|---|
| `Quota.LeaseExcludes` | src/quota/reservations.rs:312-339 | a won claim makes the ticket unclaimable for exactly the thirty seconds of its lease |
| `QuotaAccounting.RefundsNeverExceedDebits` | src/grpc/quota_service.rs:247-361 | in every run a counter is at least its seed plus the estimates of all debited tickets that no settlement has touched; a counter nobody debited has none |
| `QuotaAccounting.BooksBalance` | src/mbf/storage.rs:3467-3521 | conservation: with non-negative seeds every counter is exactly its seed plus the net effect of its own tickets, so truncation at zero never matters |
| `QuotaAccounting.NegativeSeedUnbalances` | src/mbf/storage.rs:3482-3483 | for every negative seed there is a run whose counter is truncated and no longer balances |
| `QuotaAccounting.NetIsNotNegative` | src/grpc/quota_service.rs:451-469 | no ticket ever takes more out of its counter than it put in |
| `QuotaAccounting.ApplyKeeps` | src/grpc/quota_service.rs:262-361 | every event of every process, with every fault, keeps the ticket invariants and the books of all counters |
| `QuotaAccounting.RunKeeps` | src/grpc/quota_service.rs:262-361 | hence every reachable state satisfies them |
| `QuotaCeiling.CeilingHoldsExactlyWhenGrantsFit` | src/quota/ledger.rs:48-56 | in every run: the counter is always within the limit plus overruns if and only if every granted debit fitted into the room left when it was granted |
| `QuotaCeiling.CeilingWithSlack` | src/mbf/storage.rs:3451-3458 | with a fixed limit the counter is always below the limit plus the largest estimate plus overruns |
| `QuotaCeiling.CeilingIsExceeded` | src/mbf/storage.rs:3451-3458 | for every limit and every estimate of at least two tokens one granted debit leaves the counter above the limit with no overrun |
| `QuotaCeiling.StepStaysWithin` | src/mbf/storage.rs:3451-3458 | one event keeps the counter within its limit unless it is a debit that does not fit |
| `QuotaExactness.AcknowledgedIsChargedExactlyOnce` | src/grpc/quota_service.rs:410-491 | in every run in which no call ignores the other side's entry, a ticket with at least one acknowledged reconciliation has cost exactly one of the reported amounts |
| `QuotaSafety.SafeRunsChargeOnce` | src/grpc/quota_service.rs:410-562 | the same for every run without a harmful call; a call is harmful if a client is about to settle a refunded ticket with no late charge and no report of zero, or a sweep is about to file as expired a ticket settled for more than zero |
| `QuotaSafety.CallIsSafeExactly` | src/grpc/quota_service.rs:457-490 | the exact condition: after any safe run, every safe future of one more call charges once if and only if the call is not harmful |
| `QuotaSafety.RunIsSafeExactly` | src/grpc/quota_service.rs:410-562 | for whole runs with reports on granted tickets: no call is harmful if and only if all prefixes charge once in all their safe futures |
| `QuotaSafety.HarmIsDone` | src/quota/sweeper.rs:104-138 | from every harmful call of either kind there is a safe future in which an acknowledged ticket costs an amount nobody reported |
| `QuotaSafety.ProperRunsAreSafe` | src/grpc/quota_service.rs:410-491 | runs without any ignored entry are among the safe ones |
| `QuotaExactness.LeasesAndOneStepSweepsSuffice` | src/quota/sweeper.rs:88-155 | an acknowledged ticket costs exactly one reported amount in every run in which clients settle while the row shows a live lease, and an applied refund is the first settlement, is answered, and is followed at once by that sweep's close |
| `QuotaExactness.DisciplinedIsProper` | src/quota/sweeper.rs:104-138 | in such runs neither side meets the other's entry |
| `QuotaExactness.AlwaysFiled` | src/quota/sweeper.rs:104-130 | because in every state of them a refunded ticket is closed, or its close is the very next event |
| `QuotaExactness.IgnoredRefundLosesTheCharge` | src/grpc/quota_service.rs:457-469 | from any state where a client holds a ticket the sweep refunded, two calls acknowledge a reconciliation that costs nothing |
| `QuotaExactness.IgnoredSettlementChargesTwice` | src/quota/sweeper.rs:104-138 | from any state where a sweep is about to refund a settled ticket, the client's retry is charged a second time |
| `QuotaExactness.DoubleChargeHappens` | src/grpc/quota_service.rs:525-544 | a run from the empty store with one reported amount and twice the cost |
| `QuotaExactness.LostChargeHappens` | src/grpc/quota_service.rs:457-490 | a run from the empty store with an acknowledged positive report and no cost |
| `QuotaExactness.RunStaysExact` | src/grpc/quota_service.rs:410-491 | the invariant behind exactness: close reason, ledger entry and every process agree |
| `QuotaService.Replica.Debit` | src/mbf/storage.rs:3435-3464 | check and increment are one write that is the machine's debit; the answer is the usage found after a refusal, that plus the amount after a grant |
| `QuotaService.Replica.SettleOnce` | src/mbf/storage.rs:3491-3521 | the entry moves the counter if and only if its key is new, and is the machine's settlement |
| `QuotaService.Replica.ChargeOnce` | src/grpc/quota_service.rs:525-544 | the late charge under its own key, once |
| `QuotaService.Replica.TakeLease` | src/quota/reservations.rs:312-339 | the four outcomes of a claim and the lease it writes |
| `QuotaService.Replica.ReserveTokens` | src/grpc/quota_service.rs:247-361 | whatever others do and whichever calls fail, the request is the machine's run of its own calls interleaved with theirs, to its end; its answer, figures included, is fixed by the counter its debit found and by which calls were answered; if nobody interferes, whichever calls fail: the counter takes the estimate exactly if its usage is below the limit, a refused ticket is closed as rejected, a debit that cannot be marked is taken back so that the counter shows the usage found again, and nothing else changes |
| `QuotaService.Replica.ReconcileTokens` | src/grpc/quota_service.rs:380-562 | the request is the machine's run of its own calls interleaved with the others', to its end; its reply is fixed, case by case, by the row its claim found and by whether its ledger entry was answered; a close that applies leaves the row settled; if nobody interferes, whichever calls fail: row, both ledger keys, usage and reply in values, with a thirty-second lease until the close, and nothing else changes |
| `QuotaService.Replica.ListExpired` | src/quota/reservations.rs:359-377 | the listing holds only open expired tickets of the shard, each once, as they were, and all of them unless the batch is full |
| `QuotaService.Replica.SweepTicket` | src/quota/sweeper.rs:88-155 | the visit is the machine's run of its calls to its end; its report entry is fixed by what the claim found and which calls were answered, and a refund is reported only of a row closed as expired, an abandonment only of one closed as abandoned; if nobody interferes, whichever calls fail: row, ledger key and usage in values, the close only after an answered refund; undisturbed, a claimable ticket ends closed, expired with its estimate taken off the counter if it was listed as debited and unsettled, abandoned otherwise, and nothing else changes |
| `QuotaService.Replica.SweepOnce` | src/quota/sweeper.rs:69-159 | the sweep is the machine's run of one finished visit per listed ticket; it lists open expired tickets of the shard, at most twenty-five, and leaves none unlisted unless the batch is full; its report is the sum of the entries; undisturbed, every claimable listed ticket ends refunded and expired, or abandoned, and the report counts exactly these, and the leased ones as skipped |
| `QuotaService.QuietVisit` | src/quota/sweeper.rs:88-155 | what the calls of an undisturbed visit do to ticket and counter |
| `ReservationIds.WireIdRoundTrip` | src/quota/reservations.rs:190-204 | splitting undoes composing if and only if both parts are non-empty and free of colons |
| `ReservationIds.SplitIsInjective` | src/quota/reservations.rs:198-204 | whatever splits was composed from its parts |
| `ReservationIds.LedgerKeysAreDistinct` | src/quota/reservations.rs:212-224 | one ledger key belongs to one ticket and one kind of entry |
| `Outbox.DeliveredWasPublished` | src/eda/moira.rs:396-411 | in every interleaving with crashes and lost answers, DELIVERED implies an earlier accepted publish, and retries never exceed recorded failures |
| `Outbox.DeliveredIsFinalExactly` | src/eda/moira.rs:165-242 | a delivered event stays delivered in all continuations if and only if every worker is done, about to write DELIVERED, or has yet to read the status |
| `Outbox.ExhaustedIsFinalExactly` | src/eda/moira.rs:189-302 | an exhausted event stays exhausted in all continuations if and only if every worker is done, about to read the retry count, or about to record a fifth or later failure |
| `Outbox.AttemptsAreBounded` | src/eda/moira.rs:145-302 | with one emitter at a time and watchdogs resetting at will, even under a slow emitter: at most five attempts plus one per reset, and the retry count is exactly the number of recorded failures and no more than the attempts |
| `Outbox.RetriesAreBounded` | src/eda/moira.rs:244-302 | if watchdogs wait for the emitter too, the retry count never passes five |
| `Outbox.TerminalStaysTerminal` | src/eda/moira.rs:165-302 | of both ends and for any choice of the workers that go on making calls: the event stays delivered, or exhausted, in all their continuations if and only if none of them can do harm |
| `Outbox.PassDecides` | src/eda/moira.rs:367-424 | a pass over a due event delivers it or records one failure with its waiting time |
| `Outbox.EventsSettle` | src/eda/moira.rs:145-156 | without further crashes, from every state, once the watchdog has put back what was being processed, five passes that come when due end in DELIVERED or exhausted FAILED |
| `Outbox.UndeliveredCanBeDelivered` | src/eda/moira.rs:305-356 | from every state an event that is neither delivered nor exhausted can still be delivered, if need be after a reset |
| `Outbox.BackoffDoubles` | src/eda/moira.rs:267-276 | waits double from thirty seconds, none follows the last failure, the half-hour cap is never reached |
| `Outbox.WaitIsKept` | src/eda/moira.rs:145-156 | after a failed pass a fetch takes the event up again exactly when the wait of thirty seconds, doubled with each earlier failure, is over, and never after the fifth failure |
| `Outbox.FetchedExactlyWhenDue` | src/eda/moira.rs:112-156 | a fetch leaves every event exactly as it was that is neither pending nor failed with fewer than five failures and its waiting time over |
| `Outbox.OverlappingClaimsLeaveDelivered` | src/eda/moira.rs:165-211 | two overlapping claims publish a delivered event again |
| `Outbox.StaleFetchExceedsRetries` | src/eda/moira.rs:189-192 | an emitter with a stale fetch sends an exhausted event a sixth time |
| `OutboxEmitter.FailedEventIsSeenForSure` | src/eda/moira.rs:129-157 | a failed event is sure to be looked at if and only if at most a hundred events are FAILED, exhausted ones included |
| `OutboxEmitter.SortByCreation` | src/eda/moira.rs:159-160 | the result is ordered by creation time and holds the same rows |
| `OutboxEmitter.Emitter.FetchPending` | src/eda/moira.rs:106-162 | exactly the pending rows and those of the failed rows with fewer than five retries and `retry_at` reached, each once, oldest first |
| `OutboxEmitter.Emitter.TryClaim` | src/eda/moira.rs:165-223 | its three calls are the machine's, and it claims exactly when the status read is PENDING or FAILED and all three are answered |
| `OutboxEmitter.Emitter.MarkDelivered` | src/eda/moira.rs:225-242 | the machine's delivery mark |
| `OutboxEmitter.Emitter.MarkFailed` | src/eda/moira.rs:244-302 | the machine's recount and failure mark, with the capped backoff |
| `OutboxEmitter.Emitter.EmitOne` | src/eda/moira.rs:382-420 | one visit of the machine to one event, no other event touched; the row it leaves, status, count, waiting time and claim time, in values for every combination of failing calls; it gives up exactly when the closing mark is not answered |
| `OutboxEmitter.Emitter.Emit` | src/eda/moira.rs:367-424 | the list holds the pending rows and the failed ones with fewer than five retries and `retry_at` reached; they are visited once, in order, up to the first whose closing mark is not answered, or all of them, each leaving the row that a visit leaves; a failed event before its time, or after its fifth failure, stays exactly as it was, and so do all others |
| `OutboxEmitter.Emitter.ResetOrphaned` | src/eda/moira.rs:305-356 | the listed events claimed by the cutoff go back to PENDING, each by one machine step, up to the first write that is not answered, or all of them; the count is theirs, no other event changes |
| `PrincipalGraph.WithinIsReachability` | src/cedar/principal_graph.rs:248-279 | the level sets are the nodes at the end of walks with at most that many child edges, on any graph |
| `PrincipalGraph.ExpandLevel` | src/cedar/principal_graph.rs:266-275 | one level: through the logging reader each new node is queried once and no other, and its children are queued |
| `PrincipalGraph.ExpandHierarchy` | src/cedar/principal_graph.rs:248-279 | exactly the nodes within nine child edges of a root; the reader's log grows by each node returned once and by no other; it fails exactly when a query on such a node fails |
| `PrincipalGraph.ExpansionIsCompleteExactlyWhenClosed` | src/cedar/principal_graph.rs:16-16 | the expansion is the whole reachable set if and only if it is closed under children, if and only if a tenth edge reaches nothing new |
| `PrincipalGraph.AbsorbGroup` | src/cedar/principal_graph.rs:483-514 | what the group names as locations and assets is added, the restrictions its text decodes to are appended, and the parent is queued exactly when it is named and unvisited |
| `PrincipalGraph.AssembleGroups` | src/cedar/principal_graph.rs:415-479 | ends on every parent graph, visits exactly the reflexive-transitive parents of the user's groups, absorbs each exactly once; locations, assets and restrictions are exactly what one of these groups names or lists, restrictions as often as they are listed; fails exactly when one of them cannot be read |
| `PrincipalGraph.StrListMeaning` | src/cedar/principal_graph.rs:53-69 | an attribute names x if and only if one of its texts is a JSON list holding x, or is x itself and no JSON list; blanks around the list do not count, the bare key goes before the qualified one |
| `PrincipalGraph.ParentMeaning` | src/cedar/principal_graph.rs:508-513 | the parent is the non-empty text under its key |
| `PrincipalPerimeters.IntersectOrInheritMeaning` | src/cedar/principal_graph.rs:172-182 | an empty side restricts nothing, otherwise both sides must allow |
| `PrincipalPerimeters.Expand` | src/cedar/principal_graph.rs:152-168 | the expanded roots, or the roots themselves when expansion is off |
| `PrincipalPerimeters.ConsolidateBoundary` | src/cedar/principal_graph.rs:517-556 | both perimeters of a role against the groups', failing exactly when a hierarchy cannot be read |
| `PrincipalPerimeters.Consolidate` | src/cedar/principal_graph.rs:186-246 | one consolidated perimeter per role in order; fails exactly without roles or on an unreadable hierarchy |
| `PrincipalPerimeters.WithinIsBelowSomeRoot` | src/cedar/principal_graph.rs:248-279 | the expansion of several roots is the union of theirs |
| `PrincipalPerimeters.GroupPerimeter` | src/cedar/principal_graph.rs:190-222 | the expanded union of group perimeters is what lies under a listing of some reachable group, and it is empty exactly when no such group lists anything |
| `PrincipalPerimeters.RolePerimeters` | src/cedar/principal_graph.rs:186-246 | end to end, for locations and assets: a node is in a role's perimeter if and only if it lies at most nine edges below one of the role's own and below one listed by a group reachable through parents; where one side lists nothing the other decides alone; it fails exactly without roles, on an unreadable reachable group, or on an unanswered children query below one of the listings; each perimeter carries its role's name and grants |
| `SequenceCodes.TagOfKey` | src/codice/sequence.rs:129-162 | reading the tag undoes building the key, for all names and tags |
| `SequenceCodes.KeysAreDistinct` | src/codice/sequence.rs:129-136 | if the heads `tenant:field` of different names do not touch (one equal to the other, or followed by a colon a prefix of it), different counters have different keys |
| `SequenceCodes.NamesShareKeyExactly` | src/codice/sequence.rs:129-136 | the exact condition, for all names: two of them share a key under some tags if and only if their heads touch |
| `SequenceCodes.ColonFreeNamesTouchNothing` | src/codice/sequence.rs:129-136 | names without colons touch only themselves |
| `SequenceCodes.ColonInFieldCollides` | src/codice/sequence.rs:129-136 | a colon in a field name makes two counters share a key |
| `SequenceCodes.NumberOfCode` | src/codice/sequence.rs:169-176 | the number is read back off the end of the printed code under any prefix, segment and padding that do not run into it |
| `SequenceCodes.SegmentSeparates` | src/codice/sequence.rs:169-176 | only a bare prefix can run into the number |
| `SequenceCodes.SameCodeSameNumber` | src/codice/sequence.rs:169-176 | two codes are equal if and only if stem, number and printed width are |
| `SequenceCodes.OneStemNeverCollides` | src/codice/sequence.rs:169-176 | under one stem different numbers print differently, whatever the stem |
| `SequenceCodes.DigitPrefixCollides` | src/codice/sequence.rs:169-176 | lengthening any prefix by a digit lets two numbers print alike if and only if the digit is not zero |
| `SequenceCodes.StemsCollideExactly` | src/codice/sequence.rs:169-176 | the exact condition, for all stems: within any bound two numbers can print alike under some paddings if and only if one stem is the other followed by digits of positive value, with room for one digit more within the bound |
| `SequenceCodes.PaddedOfValue` | src/codice/sequence.rs:169-176 | any run of digits is what its value prints as, padded to its length |
| `SequenceCodes.DocumentedCodes` | src/codice/sequence.rs:164-176 | the codes shown in the documentation print as shown |
| `Sequences.NumbersIncrease` | src/mbf/storage.rs:3190-3233 | over every interleaving of mints, later mints on a counter get larger numbers |
| `Sequences.CodesAreDistinct` | src/codice/sequence.rs:308-323 | over every run of mints on one counter two printed codes differ, whatever paddings, unless one stem is the other followed by digits of positive value; the counter must fit its word |
| `Sequences.CodesMeetExactly` | src/codice/sequence.rs:308-323 | the exact condition over runs, to be told before a prefix is changed: some run on a counter prints one code under both stems if and only if one of them runs into the other in this way |
| `Sequences.Registry.IncrementCounter` | src/mbf/storage.rs:3190-3233 | one write that yields the old value plus one and changes nothing else |
| `Sequences.Registry.Next` | src/codice/sequence.rs:270-324 | with other mints before every call and any call failing: the counter is the own scope's if its row held a number when read, else that of the first ancestor in the given order whose row did, else the global one; the number is one above what the increment found there; the rows end as others' increments and this one left them; a lost answer uses the number up; it errs only if one of its last two calls was not answered |
| `Sequences.ChosenIsNearest` | src/codice/sequence.rs:274-306 | what the search for the first active candidate finds is the nearest counter with a number, spelled out by scope and ancestors |
| `Sequences.MintAddsAtMostTheGlobal` | src/codice/sequence.rs:290-315 | a mint adds no counter but the global one and changes no other row |
| `Sequences.MintsAddAtMostTheGlobal` | src/codice/sequence.rs:290-315 | nor does any run of mints |
| `Generator.GenerateNumber` | src/codice/generator.rs:132-167 | the rows and the number follow from the rows at the start and from what others did before each call: the policy that the first call found wins over the configuration, ancestors and segment only for the inheriting mode and a known scope, the counter as the reads found it, its number one above what the increment found |
| `Generator.Inject` | src/codice/generator.rs:104-174 | every generated attribute the record lacks gets one value, what it had is untouched, no other key appears; the store ends as one list of increments, others' and its own, applied to the rows at the start, and each number's policy, counter and value are those found at its place in that list; after an unanswered call, the same up to the attribute it stopped at; without attributes to generate the store is not touched |
| `Generator.ScopeFieldIsFirst` | src/codice/generator.rs:77-83 | the scope field is the first attribute that is a scope or that a scope goes through |
| `Base64.DecodesExactly` | src/aegis/pagination.rs:20-23 | the strict decoder accepts the encodings of byte strings and nothing else (RFC 4648, sections 4 and 5) |
| `Base64.PaddedRoundTrip` | src/aegis/pagination.rs:38-40 | padded text decodes to what was encoded |
| `Base64.StrippedIsUnpadded` | scripts/common/auth.py:39-41 | stripping the padding gives the unpadded form |
| `Text.ParseOfDecimal` | src/aegis/pagination.rs:26-33 | a printed number parses back exactly when it fits the word |
| `Pagination.CursorRoundTrip` | src/aegis/pagination.rs:15-40 | a cursor reads back as written for all machine words and any fallback |
| `Pagination.WalkVisitsEveryRowOnce` | src/aegis/pagination.rs:46-73 | from the first page with any positive limit and no overflow, following `next_cursor` ends after the stated number of requests and the pages in order are the rows |
| `Pagination.RequestsRoundUp` | src/aegis/pagination.rs:46-51 | that number is the number of rows over the limit, rounded up, and at least one |
| `Pagination.ZeroLimitNeverEnds` | src/aegis/pagination.rs:46-61 | with limit zero and any row left at the cursor's offset no number of requests ends the walk |
| `Pagination.WalkEndsExactly` | src/aegis/pagination.rs:46-73 | without overflow the walk from the first page ends if and only if the limit is positive or there are no rows |
| `Pagination.NextThenPrevious` | src/aegis/pagination.rs:50-64 | the previous cursor of the next page leads back |
| `Pagination.CursorsLead` | src/aegis/pagination.rs:46-67 | the next cursor is there exactly if more rows follow and reads back as the next offset; the previous one exactly behind the first page, as the offset one page back, or zero |
| `Pagination.PageIsWindow` | src/aegis/pagination.rs:71-73 | a page is the rows from its offset on, up to its limit, and empty past the end |
| `Pagination.OtherCursorsFallBack` | src/aegis/pagination.rs:15-35 | each unreadable part of a cursor falls back for itself, one that is no Base64 falls back whole |
| `Pagination.DocumentedCursor` | src/aegis/pagination.rs:5-5 | offset ten with limit ten has the documented text |
| `Tokens.MintedVerifiesUntilExpiry` | scripts/common/auth.py:21-43 | every minted token verifies under its secret to its tenant, user, jti and expiry before expiry plus skew and is rejected from then on |
| `Tokens.VerifiesExactlyAuthentic` | src/cedar/authn.rs:67-98 | a text verifies if and only if it is, letter for letter, the token of some payload with complete claims that have not expired |
| `Tokens.MintedIsToken` | src/cedar/request.rs:47-60 | stripping the header's scheme gives the token minted |
| `Frames.ParseFrames` | scripts/common/grpc_client.py:45-53 | the loop ends on every byte string and yields the frames of the body |
| `Frames.FramesRoundTrip` | scripts/common/grpc_client.py:40-53 | any frames below four gigabytes come back from their concatenation, followed by what the remaining bytes parse to |
| `Frames.WireLayout` | scripts/common/grpc_client.py:41-49 | flag, four length bytes with the high one first, payload |
| `Frames.PayloadsArrive` | scripts/common/grpc_client.py:45-53 | a reader sees exactly the payloads sent, in order, with their trailer flags |
| `Frames.MessageArrives` | scripts/common/grpc_client.py:41-42 | a message the client frames is read back as that one data message, and only one too long for the length field cannot be framed |
| `Frames.CompleteBodiesOnly` | scripts/common/grpc_client.py:47-53 | a body is read without loss if and only if it ends with its last frame |
| `Frames.CutPayloadIsSilent` | scripts/common/grpc_client.py:51-53 | a body cut inside its last payload yields that payload cut short, for every cut |
| `Crc32.StepIsDivision` | scripts/ops/mbf_backup_restore.py:41-41 | the table step of section 8 of RFC 1952 is eight bits of division |
| `Crc32.ChecksumOfA` | scripts/ops/mbf_backup_restore.py:41-41 | the constants: the checksum of one letter is the one zlib gives |
| `Crc32.StepKeepsWords` | scripts/ops/mbf_backup_restore.py:41-41 | a step is injective in the running word |
| `Crc32.StepKeepsBytes` | scripts/ops/mbf_backup_restore.py:41-41 | and in the byte |
| `Crc32.CrcSeesEveryByte` | scripts/ops/mbf_backup_restore.py:52-52 | changing any one byte of any string changes its checksum |
| `LittleEndian.LittleRoundTrip` | scripts/ops/mbf_backup_restore.py:35-39 | an unsigned field reads back as written at every width it fits |
| `LittleEndian.SignedRoundTrip` | scripts/ops/mbf_backup_restore.py:36-39 | so does a signed one of eight bytes, negative values included |
| `LittleEndian.LittleOfUnsigned` | scripts/ops/mbf_backup_restore.py:35-39 | every field is what its own number is written as |
| `MbfEnvelope.InspectAcceptsEnvelope` | src/mbf/storage.rs:1389-1465 | every envelope the engine writes, for all payloads and directories, is accepted by the script, whose report shows the values that went in |
| `MbfEnvelope.InspectAcceptsExactly` | scripts/ops/mbf_backup_restore.py:21-56 | the script accepts a byte string if and only if it is whole blocks between one of the two opening magics and the closing one whose last block locates a directory inside and holds both checksums |
| `MbfInspect.OneByteChange` | scripts/ops/mbf_backup_restore.py:21-56 | an accepted container with one byte changed, other than in the two directory-locating fields, is rejected if and only if the byte lies in the header, the directory, a stored checksum or the closing magic |
| `JsonMerge.MergeJson` | src/codice/registry.rs:364-373 | the in-place loop over the later object's entries, in any order, computes the merge |
| `JsonMerge.MergeAt` | src/codice/registry.rs:364-373 | at every path: what the later value binds wins, an open path keeps the earlier one, nothing survives below a later leaf |
| `JsonMerge.SameAtAllPaths` | src/codice/registry.rs:364-373 | a value is determined by what it says at its paths |
| `JsonMerge.OrderOfTwo` | src/codice/registry.rs:364-373 | two files merge alike in both orders if and only if no path is a leaf in one and bound differently in the other |
| `JsonMerge.OrderDoesNotMatter` | src/codice/registry.rs:375-417 | any order, with any repetition, of files that agree pairwise gives the same value |
| `JsonMerge.DisagreementShows` | src/codice/registry.rs:375-417 | two files that disagree, read last, give different values in the two orders, whatever was read before |
| `Locales.CodeRegistry.Load` | src/codice/registry.rs:375-418 | the recursive load adds exactly the readable JSON documents of the tree in reading order |
| `Locales.LocaleIsMerge` | src/codice/registry.rs:395-408 | each locale is the merge of its own documents and exists exactly if it had one |
| `Locales.JsonNames` | src/codice/registry.rs:386-386 | a JSON file is one whose name has something before `.json` |
| `Locales.LocaleIsStem` | src/codice/registry.rs:387-394 | the locale is the first path component with every trailing `.json` taken off |
| `Locales.LoadingOrderDoesNotMatter` | src/codice/registry.rs:375-420 | the same documents in any order give the same dictionaries when they agree within each locale |
| `Locales.ReadingsAreOfFiles` | src/codice/registry.rs:375-418 | what is read of a tree depends only on the documents it holds and their paths |
| `Locales.ListingOrderDoesNotMatter` | src/codice/registry.rs:375-420 | trees that hold the same documents under the same paths load alike, however their directories are listed, when the documents of each locale agree |
| `CloneIndex.BuildWindows` | scripts/dev/check_clean_code.py:293-297 | the index lists exactly the ten-line windows of all files under their texts |
| `CloneIndex.SameBlock` | scripts/dev/check_clean_code.py:293-297 | two windows have one text exactly when their ten lines agree |
| `CloneIndex.RecordBlock` | scripts/dev/check_clean_code.py:301-313 | a text in two files or more leaves every location's bucket recorded, and only genuine findings |
| `CloneIndex.DetectDryDuplicates` | scripts/dev/check_clean_code.py:291-314 | a file gets a finding if and only if one of its windows occurs in another file; each finding is a window with exactly the other files that have it, one per bucket, and every clone's bucket has one |

## Left out

- QuotaAccounting.BooksBalance: counters are unbounded integers; overflow of 64-bit arithmetic is not modelled.
- QuotaService.Replica.ReserveTokens: authentication, quota resolution and response texts are left out; limit and seed are parameters, the ticket's index stands for its ULID.
- QuotaService.Replica.SweepOnce: one shard; rotating over shards and a listing that fails would add only easy cases.
- Outbox.AttemptsAreBounded: attempts are calls to the bus; deduplication inside the queue service is not modelled.
- Outbox.EventsSettle: passes are assumed to come once the waiting time is over.
- OutboxEmitter.Emitter.FetchPending: the store's answer is a parameter; an absent timestamp and a failed query for FAILED rows, which the code reads as none, are left out, and so is the order of equal timestamps.
- OutboxEmitter.Emitter.Emit: an event id that is missing or an event whose row is empty is skipped by the code and does not occur in the model.
- PrincipalPerimeters.RolePerimeters: roles and their boundaries are inputs; pulling roles, parsing grants, suspension and the user's own time restrictions are left out, and the order of restrictions within a wave follows the queue.
- PrincipalGraph.AssembleGroups: trimming before a JSON list covers ASCII blanks only; concurrent pulls of one wave are made one after the other.
- Sequences.CodesAreDistinct: per counter; different counters of one field may print the same code when they share a stem.
- Sequences.Registry.IncrementCounter: the row's timestamp and tenant field; syncing the partition with object storage is one atomic step.
- Generator.Inject: Base36 codes come from a parameter.
- Tokens.MintedVerifiesUntilExpiry: expiry plus skew is an unbounded integer; blanks around the header value are not trimmed; MAC and JSON are abstract.
- Pagination.WalkVisitsEveryRowOnce: an offset and limit whose sum overflows ends the model's walk; the code panics or wraps.
- MbfEnvelope.InspectAcceptsEnvelope: the seal, the directory's bytes, the hashes and the clock are parameters.
- MbfInspect.OneByteChange: bytes of the two fields that locate the directory may or may not be noticed; the SHA-256 in the report is left out.
- Locales.CodeRegistry.Load: names that are not Unicode and links are not modelled; arrays and scalars are opaque leaves.
- CloneIndex.DetectDryDuplicates: a finding names all other files, not the first two in order; normalising lines is not modelled.
- gRPC transport, interceptors, start-up, CORS and signals: plumbing.
- Policy evaluation, bcrypt, HMAC and SHA, regular expressions: library calls.
- Quota renewal and projection, the configuration call that resets a sequence counter, entity models and profiles: other services or finite tables.
- `dynamo_store::DynamoReservationStore`, named at `src/quota/reservations.rs:138`, is not part of this model; the store modelled is the in-memory one.
- Expiry of closed tickets by the store: a ticket is never deleted.

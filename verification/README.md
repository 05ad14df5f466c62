# EdgePay: a verified model of the ledger, the device gate and the codecs

A Dafny 4.11 model of the parts of EdgePay that money and trust depend on, with proofs about
every input, every run or every reachable state. Every claim below is a contract that the Dafny
verifier checks (`dafny verify dfyconfig.toml`).

- **The merchant ledger** (`Chart`, `Journal`, `Posting`, `PostingRules`, `PostingAnswers`,
  `AuditMirror`, `Outbox`, `OutboxRules`, `Protocol`, `LedgerTheorems`, `RetryHistory`, `WidePostings`,
  `Delivery`, `HandlerRules`, `Deadline`, `LedgerDO`). One object holds the accounts, the journal, the
  registry of posted transactions and an outbox; drains copy the outbox into a D1 mirror. The
  object is a class whose methods are proved equal to functions on values. On top of these
  functions, `Protocol` is a state machine in which posting calls with faults, overlapping drains,
  D1 batches that are applied late, repeatedly or after their answer was lost, retention sweeps and
  crashes interleave freely. `LedgerTheorems` says what holds in the state that *any* sequence of
  events leads to; `Delivery` says what a drain sends and how fast the outbox empties, `Deadline` how
  late the alarm can be. `PostingRules`, `OutboxRules` and `HandlerRules` state what these functions
  compute without them, with account kinds and numbers written out; `PostingAnswers` decides every
  answer of a posting call and `RetryHistory` what the retry columns record.
- **The device gate** (`DeviceNonces`, `DeviceGate`, `Pairing`). Nonce table, freshness window,
  purge job, velocity caps and one-time pairing codes, over whole runs with clock readings.
- **The codecs** (`Der`, `DerDecode`, `DerRules`, `DerAsWritten`, `DerTermination`, `SignatureCodec`,
  `CanonicalPayload`). DER parsing against a reference encoder and, where lengths wrap, exactly as the
  program runs, with a decision of when it returns; two signature converters; and the strings devices
  sign.
- **Two imperative loops** (`QueueSweep`, `CommentStripper`).

## Findings

Where a property one would expect does not hold of the code, the code is kept, an input shows it,
and the exact condition is proved.

- A posting of more than 98 legs needs more than 100 mirror statements. Validation sets no upper bound
  (`WidePostingCommits`), so it is committed, but no run ever mirrors it (`OversizeNeverMirrored`, and
  `OversizePostingStuck` for balanced postings of 100 legs and more). Enough accepted alarms empty the
  outbox if and only if no pending posting is that large (`DeliveredIffSmall`).
- A drain sends something if and only if its eligible row of lowest id has at most 98 legs and the
  merchant is cached, in the object's name or in that row's payload (`DrainSendsIff`). While the oldest
  pending row fails this, forced drains send nothing at all. Validation does not ask for a merchant id:
  in an object without a usable name whose callers give none, every commit stays pending for ever
  (`NoMerchantNeverMirrored`), and where some do, delivery starts exactly at the first alarm whose first
  due row names the merchant (`DeliveryStartsIff`).
- A failure after the commit but before the alarm nudge leaves the row to whatever alarm is already
  armed, and neither retries nor restarts change that (`AfterCommitDeadlineIff`). In a new ledger the
  alarm is a day away (`NudgeMissedForADay`); it is never more than a day away (`AlarmDeadline`), and the
  next alarm or the next commit restores the 60 s deadline (`AlarmRestores`, `CommitArms`).
- The fourteen seeding inserts are not one transaction, and a call may fail between two of them. In
  every run each account carries the currency of the first call whose seeding reached it
  (`BooksAlwaysBalance`), so the book is in one currency if and only if these calls agree
  (`SingleCurrencyIff`); one interrupted call and a later one in another currency show that it can fail
  (`InterruptedSeedingMixes`).
- The ±300 s freshness window and the 600 s retention fit exactly when the test and the insert
  share one clock reading. If they may lie `lag` apart and timestamps may run `lead` ahead, replay
  is impossible if and only if `lead + lag` is at most 300 s (`ReplayBoundExact`, `ReplayHappens`).
- The velocity count compares whole seconds. It keeps every 60 whole seconds at 120 accepted
  messages (`SlidingWindow`), but on the clock the cap holds for every span of n milliseconds in every
  run if and only if n is at most 59 000 (`SlidingSpanExact`): two full batches at 999 ms and 60 000 ms
  are both accepted (`TwoBatchesWithinTheMinute`).
- A four-octet DER length with its top bit set becomes negative (`LengthWrapsIff`), and `NoProgressIff`
  says which of these lengths do not move the parser forward. The parser then may never return: exactly
  on the inputs where some child loop that is reached comes back to an offset it has seen
  (`ReturnsIff`). A child that stands still (`WrappedLengthNeverReturns`) and two children in a
  circle (`TwoChildrenInACircle`) show it.
- OBJECT IDENTIFIER decoding inverts the encoding exactly when the first subidentifier fits one
  octet (`OidRoundTripIff`).
- Both signature converters return a 64-octet input unchanged, also when it is the DER form of some
  signature (`P1363RoundTripIff`, `RawRoundTripIff`); `AmbiguousSignature` gives a family of such
  signatures and `AmbiguousSignatureExists` one of them.
- What is signed is UTF-8, in which a lone surrogate and U+FFFD coincide (`LoneSurrogatesCollide`). The
  signed octets of two payloads agree if and only if every field does once its lone surrogates are
  U+FFFD (`SignedFieldsUnique`), so a field can stand for a different one if and only if it holds a lone
  surrogate (`FieldForgeableIff`).

Code and documentation disagree in a few places; the model follows the code. The repository's
README.md:238 announces phone retries after 2, 4, 8 and 16 s, the code schedules 4, 8, 16 and 32 s.
docs/POSTING-PROTOCOL.md and the header of src/types/ledger.ts still describe a write-ahead row in
D1; the code commits locally and drains an outbox. The comment on `MAX_AMOUNT_MINOR`
(src/do/ledger-do.ts:55) says 90M, the constant is 9·10^12 minor units.

## Assumptions

- D1 batches are atomic, `uuid` and `tx_id` are unique keys, and the mirror holds this ledger's rows.
- The platform clears the alarm before it runs the alarm handler; row ids come from an autoincrement
  column and are never reused; posting calls are serialised.
- Clocks, D1 answers, HTTP replies, faults, carrier and signature verdicts and Unicode NFC are
  parameters over which every theorem quantifies. ISO and `datetime` texts are compared as the times
  they denote.

## Model

| member | source | states |
|---|---|---|
| Chart.DefaultChartDistinct | src/lib/ledger-chart.ts:24-39 | no two accounts of the default chart share a code |
| Chart.KindByFirstDigit | src/lib/ledger-chart.ts:24-39 | the kind of each of the fourteen accounts is the one its first digit stands for |
| Journal.ExchangeSums | src/do/ledger-do.ts:310-336 | summing a two-sided journal per account and over accounts gives total debits minus total credits |
| Posting.SeedChartEffect | src/do/ledger-do.ts:844-857 | seeding adds exactly what the chart still lacks, at zero and in the caller's currency, and changes nothing else |
| Posting.InterruptedSeedingIff | src/do/ledger-do.ts:844-857 | seeding broken off after k inserts and completed in another currency leaves one currency if and only if k is zero or all, or the currencies are equal |
| Posting.SeedInTwoSteps | src/do/ledger-do.ts:844-857 | seeding broken off anywhere and completed in the same currency equals one uninterrupted seeding |
| Posting.CommitKeepsBalances | src/do/ledger-do.ts:734-772 | after the balance check, applying the deltas leaves every balance non-negative and equal to what the longer journal implies, with several legs on one account allowed |
| Posting.PostKeepsBook | src/do/ledger-do.ts:159-270 | every posting call, whatever its payload and wherever it fails, between two seeding inserts included, leaves registry, journal and balances equal to the replay of the log of commits; `Posted` means one commit more |
| Posting.CurrencyFixedByFirstCall | src/do/ledger-do.ts:159-165 | the first call whose seeding reaches an account, even if it fails or is rejected, fixes the account's currency; later calls keep it |
| Posting.RejectedCallChangesNothing | src/do/ledger-do.ts:162-185 | a duplicate or a validation failure changes nothing beyond what the chart still lacked |
| Posting.AccountingEquation | src/do/ledger-do.ts:293-350 | in every book that replays its log the trial balance is balanced; once seeded, debit-normal balances sum to credit-normal balances, and before nothing is posted |
| Posting.EventIdInjective | src/do/ledger-do.ts:198-199 | an event id determines merchant and transaction, whatever characters the transaction id contains |
| Posting.SumsStayExact | src/do/ledger-do.ts:886-903 | for up to 1000 legs both running sums stay at or below 9·10^15, below 2^53 |
| PostingRules.ShapeErrorIff | src/do/ledger-do.ts:878-911 | a payload is INVALID, UNBALANCED or well shaped exactly by its fields and the sums of its two sides |
| PostingRules.BalanceErrorIff | src/do/ledger-do.ts:734-772 | the balance check passes if and only if every leg is held and no touched account goes negative, by kind; otherwise the first refused leg decides, or INSUFFICIENT_FUNDS |
| PostingRules.CommitEffect | src/do/ledger-do.ts:202-242 | a call that commits writes registry, journal rows, balances by kind and the outbox row to the seeded book, and nothing else to it |
| PostingRules.EquationByKind | src/do/ledger-do.ts:293-350 | in a book that replays its log every balance follows from the journal by kind, and the five kinds satisfy the accounting equation |
| PostingAnswers.AnswerDecided | src/do/ledger-do.ts:132-185 | in every reachable state each answer (posted, duplicate of a time, each error) is given if and only if the written-out condition on payload, accounts and failure holds |
| PostingAnswers.FeePosting | src/services/ledger.ts:367-375 | the first payment of a new ledger with a fee is posted if and only if the fee is at most the amount; clearing then holds amount less fee, revenue the amount, fee expense the fee |
| AuditMirror.MirrorPosting | src/services/ledger-audit.ts:63-145 | running a posting's statements completes its mirror rows, each leg once and in order, from either an absent or a complete state; on a complete one nothing changes |
| AuditMirror.BatchKeepsMirrorOk | src/services/ledger-audit.ts:54-62 | a batch of committed postings completes all of them, disturbs none already mirrored, and leaves no posting half mirrored |
| AuditMirror.MirrorNetIsBookNet | tests/ledger-consistency.test.ts:205-220 | once all commits are mirrored, net movement per account agrees between mirror and journal, however batches were split, repeated or ordered |
| AuditMirror.CompleteIsMirrored | src/services/ledger-audit.ts:63-145 | a complete posting has its registry row, its header and, for the i-th leg, one row of order i + 1 with that leg's account, direction, amount and the posting's currency, and no other leg |
| AuditMirror.StatementsKeepRows | src/services/ledger-audit.ts:63-145 | whatever statements run in whatever batches, no header has two legs of one order, every leg has a header, and headers and legs that are there stay as they are |
| Outbox.CandidatesAreLowest | src/do/ledger-do.ts:385-404 | the candidates are eligible and in id order, and an eligible row is left out only behind exactly 20 rows of smaller id |
| Outbox.IncludedIsLongestFit | src/do/ledger-do.ts:425-440 | a prefix of the candidates fits 100 statements if and only if it is no longer than the included one |
| Outbox.NothingFits | src/do/ledger-do.ts:437-446 | nothing is included if and only if the first candidate has more than 98 legs |
| Outbox.BackoffBounds | src/do/ledger-do.ts:486-491 | backoff lies in [2 s, 60 s] and does not decrease with the retry count |
| Outbox.DrainShrinksDue | src/do/ledger-do.ts:394-475 | a drain with a due row strictly shrinks the due set, whether accepted, refused, oversize or without a merchant |
| OutboxRules.MarkRetryPutsOff | src/do/ledger-do.ts:479-503 | putting rows off counts one failure and sets the written-out wait on exactly these rows |
| OutboxRules.CostCountsStatements | src/do/ledger-do.ts:425-440 | the cost the composing loop sums is the number of mirror statements of the batch |
| OutboxRules.DrainWritesOut | src/do/ledger-do.ts:381-476 | what a drain writes to the outbox in each of its cases, in terms of the taken rows |
| OutboxRules.TargetRings | src/do/ledger-do.ts:591-614 | the target of the alarm: 100 ms, the earliest retry time, or a day after the last snapshot |
| RetryHistory.RetriesRecorded | src/do/ledger-do.ts:479-503 | in every run a row's retry count is the number of its refused, lost or put-off deliveries, and a pending row waits from the last of them |
| Protocol.FreshCommitNeverAborts | src/do/ledger-do.ts:816-823 | in every reachable state the UNIQUE event id never aborts a posting that passed its checks |
| Protocol.StepKeepsInv | src/do/ledger-do.ts:202-518 | every event keeps the protocol invariant: posting with faults, select, late or repeated D1 apply, lost answer, sweep, alarm, crash |
| Protocol.RunInv | src/do/ledger-do.ts:1-41 | the invariant holds in the state every event sequence leads to |
| LedgerTheorems.NoLossNoPhantom | src/do/ledger-do.ts:370-476 | under every interleaving each posted transaction is pending or wholly mirrored, every synced row is mirrored, and the mirror holds posted transactions only |
| LedgerTheorems.SyncedIsFinal | src/do/ledger-do.ts:478-503 | a synced row never becomes pending again in any continuation, whatever slower drain fails |
| LedgerTheorems.BooksAlwaysBalance | src/do/ledger-do.ts:298-350 | in every run with failures anywhere: trial balance balanced; every balance is debits minus credits for assets and expenses, credits minus debits for the other kinds; once the chart is complete, assets plus expenses equal liabilities plus equity plus revenue; no negative balance, each account in the currency of the first call that reached it, and no posting mixes currencies |
| LedgerTheorems.SingleCurrencyIff | src/do/ledger-do.ts:844-857 | in every run the accounts are in one currency if and only if the calls that first reached some account agree; then all posted transactions are in it too |
| LedgerTheorems.FirstCallSeedsAll | src/do/ledger-do.ts:159-165 | without interrupted seeding that currency is the one of the very first call, even a rejected one |
| LedgerTheorems.InterruptedSeedingMixes | src/do/ledger-do.ts:844-857 | any call interrupted after some inserts and any later call in another currency leave a book in two currencies |
| LedgerTheorems.ExactlyOnce | src/do/ledger-do.ts:132-180 | once a client that repeats a payload is told posted or duplicate, the journal holds exactly that payload's rows for its id, in every continuation and after any failures |
| LedgerTheorems.JournalMatchesRegistry | src/do/ledger-do.ts:202-224 | in every run a transaction has journal rows if and only if it is registered |
| LedgerTheorems.RetryAfterInternal | src/do/ledger-do.ts:136-155 | an undisturbed retry after INTERNAL is posted if nothing was committed, a duplicate of the first time if it was, and answered like a first call if the seeding was interrupted |
| LedgerTheorems.MirrorConverges | tests/ledger-consistency.test.ts:205-220 | in any run that ends with nothing pending, each account's mirror aggregate equals its ledger balance |
| LedgerTheorems.MirroredLegByLeg | src/services/ledger-audit.ts:63-145 | in every run a posted transaction is mirrored with every leg as posted, or nothing of it is and a row of it is pending |
| LedgerTheorems.OversizeNeverMirrored | src/do/ledger-do.ts:442-446 | in no run is a committed posting of more than 98 legs mirrored; it stays pending |
| WidePostings.WidePostingCommits | src/do/ledger-do.ts:878-911 | a new ledger commits a balanced posting of any even number of legs |
| WidePostings.OversizePostingStuck | src/do/ledger-do.ts:442-446 | such a posting of 100 legs or more is answered `Posted`, and after any further events it is pending and absent from the mirror |
| Delivery.FireAlarmLedger | src/do/ledger-do.ts:561-589 | the protocol steps of one alarm do to the ledger exactly what the handler does |
| HandlerRules.AlarmDoes | src/do/ledger-do.ts:561-614 | what one alarm handler does with every number written out: rows taken and marked, hourly sweep, daily snapshot time, merchant remembered, next alarm; the book is untouched |
| HandlerRules.CrashForgets | src/do/ledger-do.ts:90-113 | a crash keeps tables, mirror and a set alarm, clears both caches, and an answer that arrives after it changes nothing |
| Delivery.BoundedDelivery | src/do/ledger-do.ts:381-503 | from any reachable state, with D1 accepting, the merchant resolvable from cache, name or payloads and pending postings of at most 98 legs, one alarm more than there are pending rows empties the outbox and completes the mirror |
| Delivery.DeliveredIffSmall | src/do/ledger-do.ts:437-446 | under the same alarms the outbox empties if and only if no pending posting has more than 98 legs |
| Delivery.DrainSendsIff | src/do/ledger-do.ts:406-446 | a drain sends a batch if and only if the eligible row of lowest id has at most 98 legs and a merchant can be resolved; otherwise no status changes |
| Delivery.DrainResolvesIff | src/do/ledger-do.ts:406-424 | after a drain the merchant is known if and only if it was before or the eligible row of lowest id names it; from then on the state is resolvable |
| Delivery.DeliveryStartsIff | src/do/ledger-do.ts:406-424 | while no merchant is known, a series of accepted alarms delivers something if and only if one of them finds a first due row that names the merchant |
| Delivery.DeliveredOnceNamed | src/do/ledger-do.ts:381-503 | as many more alarms as rows are pending then deliver everything |
| Delivery.NoMerchantNeverMirrored | src/do/ledger-do.ts:408-424 | in every run of an unnamed object whose payloads carry no merchant id, the mirror stays empty and every commit pending |
| Deadline.AlarmDeadline | src/do/ledger-do.ts:591-614 | in every run of whole handlers with any faults on a forward clock, an alarm is armed at most a day after the last handler, and at most 60 s after it when a row is pending, unless a nudge is missing |
| Deadline.AlarmRestores | src/do/ledger-do.ts:561-614 | after an alarm the 60 s deadline holds whatever went wrong before |
| Deadline.CommitArms | src/do/ledger-do.ts:357-368 | a commit meets the 60 s deadline unless its call fails before the nudge with the alarm further away |
| Deadline.AfterCommitDeadlineIff | src/do/ledger-do.ts:244-262 | after a failure between commit and nudge, and any refused calls, retries and restarts, the deadline holds at a later time if and only if the old alarm rings within 60 s of it; the retry is a duplicate that changes nothing |
| Deadline.NudgeMissedForADay | src/do/ledger-do.ts:261-262 | a new ledger whose first posting fails after its commit keeps a pending row with the alarm a day away, through any refused calls, retries and restarts |
| LedgerObject.LedgerDO.constructor | src/do/ledger-do.ts:102-113 | a new object has empty tables and an alarm one snapshot interval ahead |
| LedgerObject.LedgerDO.SeedChartInPlace | src/do/ledger-do.ts:844-857 | the seeding loop equals `SeedChart`, or `SeedPart` where it is interrupted, and touches nothing else |
| LedgerObject.LedgerDO.ValidatePostingShape | src/do/ledger-do.ts:878-911 | INVALID if and only if the id is empty, there are fewer than two legs, or a leg has another direction, a non-integer amount, one outside 1 to 9·10^12, or no account; UNBALANCED if and only if none of these and the sides differ |
| LedgerObject.LedgerDO.AccumulateDeltas | src/do/ledger-do.ts:734-760 | no error if and only if every leg names a held account in the posting's currency; then each new balance is the old one moved by its debits and credits, by kind of account |
| LedgerObject.LedgerDO.CheckBalances | src/do/ledger-do.ts:734-772 | passes if and only if every leg names a held account in the posting's currency and no touched account goes negative, where assets and expenses grow with debits and the other kinds with credits; INSUFFICIENT_FUNDS if and only if only the second fails |
| LedgerObject.LedgerDO.AddToBalances | src/do/ledger-do.ts:226-233 | adds each delta to its account once and leaves the others |
| LedgerObject.LedgerDO.CommitInPlace | src/do/ledger-do.ts:202-242 | registry entry, one journal row per leg, every balance moved by its debits and credits by kind, and one fresh pending outbox row, together and nothing else |
| LedgerObject.LedgerDO.NameEvent | src/do/ledger-do.ts:195-199 | remembers the merchant and names the event after it |
| LedgerObject.LedgerDO.GetMerchantId | src/do/ledger-do.ts:646-656 | a returned id is positive and cached, so the next call returns it too; none is returned only if neither cache nor name holds a positive one |
| LedgerObject.LedgerDO.KickOutboxAlarm | src/do/ledger-do.ts:357-368 | an alarm due within 60 s stays, a later or missing one is set to 100 ms from now |
| LedgerObject.LedgerDO.PostTransaction | src/do/ledger-do.ts:132-157 | new state and answer equal `Post`, for every payload and fault |
| LedgerObject.LedgerDO.PostToSeededChart | src/do/ledger-do.ts:164-270 | the same for the part after seeding |
| LedgerObject.LedgerDO.TrialBalance | src/do/ledger-do.ts:298-350 | totals per direction, and each derived balance as debits minus credits or the reverse by kind of account; balanced if and only if totals and all balances agree |
| LedgerObject.LedgerDO.ComposeBatch | src/do/ledger-do.ts:425-440 | the included rows make a batch of at most 100 mirror statements, and one row more would not |
| LedgerObject.LedgerDO.MarkOutboxRetry | src/do/ledger-do.ts:479-503 | each listed row counts one failure more and waits 2, 4, 8, 16 or 32 s after failures one to five and 60 s after any later one; every other field and row stays |
| LedgerObject.LedgerDO.MarkOutboxSynced | src/do/ledger-do.ts:461-473 | the listed rows become synced at the given time without a retry time; every other field and row stays |
| LedgerObject.LedgerDO.SelectPending | src/do/ledger-do.ts:385-404 | at most 20 rows in id order, each pending and, unless forced, not waiting for a later time; such a row is left out only behind 20 of lower id |
| LedgerObject.LedgerDO.SelectBatch | src/do/ledger-do.ts:381-446 | nothing, no merchant, too large, or a batch, exactly as `Choose` |
| LedgerObject.LedgerDO.DrainOutbox | src/do/ledger-do.ts:381-476 | what a drain writes for both answers of D1: all taken rows put off if no merchant is known, only the first if it has more than 98 legs, else the filled batch delivered or put off; with its reported counts |
| LedgerObject.LedgerDO.MaybeCleanupOutbox | src/do/ledger-do.ts:509-518 | within an hour of the last sweep nothing changes; otherwise exactly the synced rows of more than seven days go |
| LedgerObject.LedgerDO.ScheduleNextAlarm | src/do/ledger-do.ts:591-614 | the alarm rings in 100 ms if a pending row is due, else at the earliest retry time, else a day after the last snapshot, or at the old alarm if that is earlier |
| LedgerObject.LedgerDO.Alarm | src/do/ledger-do.ts:561-589 | drain, snapshot time, sweep and re-arm in that order |
| DeviceNonces.ForgottenIsNotFresh | src/cron/handler.ts:277-286 | within the bound, a message whose nonce may have been purged is no longer fresh |
| DeviceNonces.ReplayBoundExact | src/controllers/mobile.ts:859-904 | no run of attempts and purges accepts a (device, nonce, timestamp) twice if and only if lead plus lag of the fresh attempts is at most 300 s |
| DeviceNonces.AtomicAcceptsNeverReplay | src/controllers/mobile.ts:597-631 | with one clock reading per accept the full window is safe |
| DeviceNonces.ReplayHappens | src/cron/handler.ts:281-286 | a concrete run over the bound that accepts a message twice |
| DeviceNonces.PurgeKeepsRecent | src/cron/handler.ts:281-286 | purging never changes a count of rows younger than the retention |
| DeviceNonces.RecentCounts | src/controllers/mobile.ts:837-846 | the velocity count is the number of the device's rows whose second is less than 60 s old |
| DeviceNonces.SlidingWindow | src/controllers/mobile.ts:837-846 | over every run of requests served one after the other, with inserts spread over each request, no 60 whole seconds hold more than 120 accepted signed messages of a device |
| DeviceNonces.SlidingSpanExact | src/controllers/mobile.ts:1070-1078 | every span of n milliseconds in every such run holds at most 120 of them if and only if n is at most 59 000 |
| DeviceNonces.TwoBatchesWithinTheMinute | src/controllers/mobile.ts:1070-1078 | a run of two batches in which 240 messages are accepted within 59 001 ms |
| DeviceGate.NonceGate.ReceiveSms | src/controllers/mobile.ts:730-905 | accepted as signed if and only if content is present, the carrier trusted, fewer than 60 rows are recent, and the keyed device sent a nonce no stored row has, a time within 300 s and a valid signature; every refusal has the first reason that applies; table and history change accordingly |
| DeviceGate.NonceGate.ReceiveBatch | src/controllers/mobile.ts:1070-1171 | within the cap if and only if recent rows and messages come to at most 120; then exactly the admissible messages that for a keyed device are also validly signed, in time and unused are queued and stored, the others rejected for the first reason that applies |
| DeviceGate.NonceGate.SortMessages | src/controllers/mobile.ts:1083-1171 | the loop puts each message in exactly one list, in order, at its own clock reading, by the same written-out conditions, and stores the queued signed ones |
| DeviceGate.NonceGate.RotateKey | src/controllers/mobile.ts:594-631 | accepted if and only if nonce, time within 300 s, valid signature and an unused nonce; refused for the first reason that applies; no velocity cap |
| DeviceGate.NonceGate.PurgeExpired | src/cron/handler.ts:281-286 | deletes exactly the rows created more than 600 s ago and counts them |
| DeviceGate.AcceptedNoncesDistinct | src/controllers/mobile.ts:1117-1129 | nonces accepted from a batch are new and pairwise different |
| DeviceGate.VerdictIsFirst | src/controllers/mobile.ts:859-904 | a message is refused for the first of six written-out reasons that applies, and accepted if and only if none does |
| DeviceGate.PartitionSortsOut | src/controllers/mobile.ts:1083-1171 | which positions of a batch are queued, and for which first reason the others are rejected |
| DeviceGate.OnlyGenuineQueued | src/controllers/mobile.ts:730-905 | in every run of the routes and the purge job, every signed message queued came from an item with content, a trusted carrier, a valid signature and a time within 300 s |
| DeviceGate.BatchIsAccepts | src/controllers/mobile.ts:1150-1156 | a batch changes the nonce table as accepting its queued messages one by one does |
| Pairing.PairStepKeeps | src/controllers/mobile.ts:181-210 | every step of every concurrent request keeps at most one claim per token |
| Pairing.OneDevicePerToken | src/controllers/mobile.ts:204-210 | however requests interleave, no token yields two devices |
| Pairing.SpentTokenIsDead | src/controllers/mobile.ts:425-452 | a token whose claimer failed or finished yields no further device in any continuation |
| Pairing.OnlyTheCodePairs | src/controllers/mobile.ts:181-210 | in every run each paired device has, in order, the first issue of its token, a look-up with the same hash no later than its expiry, a claim and a registration by that request |
| Pairing.UndisturbedPairing | src/controllers/mobile.ts:181-210 | look-up, claim and registration in a row add exactly the device if the hash is right, the token unused and not expired, and change no token or device otherwise |
| Pairing.LookUpGoesOnIff | src/controllers/mobile.ts:181-203 | a request goes on after its look-up if and only if the hash is right, the token unused and not expired |
| Pairing.GivenUpIsOver | src/controllers/mobile.ts:225-262 | a request that ends early registers nothing in any continuation, and its claimed token stays spent |
| Der.ParseStructure | src/lib/asn1.ts:103-136 | a parsed node is the element at the offset; at every depth header and value make up the raw bytes and children's raw bytes make up the value |
| Der.ParseIsLocal | src/lib/asn1.ts:49-137 | a parsed element parses the same at any position and whatever follows it |
| Der.LengthWrapsIff | src/lib/asn1.ts:86-101 | a decoded length is negative exactly for four octets with the top bit set |
| Der.NoProgressIff | src/lib/asn1.ts:97-110 | an element does not move the offset forward if and only if its length octet is 0x84 and the four octets, unsigned, lie between 2^31 and 2^32 less the header |
| Der.ParseEncode | src/lib/asn1.ts:49-137 | parsing the encoding of any tree with tags and lengths below 2^31 returns that tree |
| Der.ParseEncodeAt | src/lib/asn1.ts:112-121 | the same anywhere inside a longer input |
| DerDecode.ReadTagNumber | src/lib/asn1.ts:64-73 | the base-128 loop, with 32-bit wrap-around |
| DerDecode.ReadLengthOctets | src/lib/asn1.ts:79-101 | short and long form, and the three length errors |
| DerDecode.ParseAsn1Node | src/lib/asn1.ts:49-137 | the looping parser terminates and equals the parser function, which stops at a wrapped length |
| DerDecode.ParseAll | src/lib/asn1.ts:112-121 | the child loop returns all children or the first error |
| DerRules.TagReads | src/lib/asn1.ts:64-73 | the tag number is five bits, or the 32-bit wrapped base-128 number of the octets up to the first below 128 |
| DerRules.LengthReads | src/lib/asn1.ts:79-101 | the length is one octet below 128 or the 32-bit wrapped number of one to four octets; each of the three errors occurs for exactly the written-out first octets |
| DerRules.ElementReads | src/lib/asn1.ts:49-137 | class, form, tag number, header length, length, value and raw octets of an element, or the error and what causes it |
| DerAsWritten.AsWrittenIsParse | src/lib/asn1.ts:49-137 | the program, with undefined octets, NaN and negative offsets, ends and answers what the parser function answers, on every input where that does not stop at a wrapped length |
| DerAsWritten.MoreFuel | src/lib/asn1.ts:112-121 | an answer of the program as written does not depend on the fuel the model counts down |
| DerAsWritten.StandsStillIff | src/lib/asn1.ts:97-110 | the next offset is the start if and only if the four length octets, unsigned and at least 2^31, are 2^32 less the header |
| DerAsWritten.StuckLoop | src/lib/asn1.ts:116-120 | after n passes over such a child the offset is the same, with n children more |
| DerAsWritten.LoopNeverEnds | src/lib/asn1.ts:116-120 | the child loop never ends at such a child |
| DerAsWritten.WrappedLengthNeverReturns | src/lib/asn1.ts:112-121 | eight octets on which the parser never returns |
| DerTermination.ReturnsIff | src/lib/asn1.ts:49-137 | for every input, the program runs for ever if and only if `NodeFate`, which follows each child loop until it ends, fails or sees an offset twice, says so; and it returns a node if and only if `NodeFate` says so |
| DerTermination.NeverOnlyIfWrapped | src/lib/asn1.ts:97-110 | it runs for ever only on inputs where the parser function stops at a wrapped length |
| DerTermination.TwoChildrenInACircle | src/lib/asn1.ts:116-120 | eight octets whose two children send the loop back and forth for ever, though neither stands still |
| DerDecode.IntegerToBigInt | src/lib/asn1.ts:149-170 | the two's-complement value of every non-empty octet string |
| DerDecode.TwosComplementRange | src/lib/asn1.ts:155-169 | that value agrees with the octets modulo 256^n and lies in the signed range |
| DerDecode.OidToParts | src/lib/asn1.ts:196-219 | the loop equals the decoding function, dropping an unfinished last part |
| DerRules.OidPartReads | src/lib/asn1.ts:206-216 | a part is the base-128 number of its octets; octets above 127 without a last one below 128 make no part |
| DerDecode.OidRoundTripIff | src/lib/asn1.ts:202-216 | decoding inverts encoding if and only if the first subidentifier is below 128 |
| SignatureCodec.P1363ToDer | src/lib/device-crypto.ts:137-176 | for 64 octets, strict DER: one SEQUENCE of two primitive INTEGERs that ends with the output, whose two's-complement values are the unsigned halves and whose contents are minimal; an error for other lengths |
| SignatureCodec.RawSignatureToDer | src/middleware/cloudflare-access.ts:86-92 | the same strict DER form for 64 octets, anything else unchanged |
| SignatureCodec.DerIntegerOf | src/middleware/cloudflare-access.ts:74-80 | tag, length and the minimal content whose two's-complement value is the unsigned number |
| SignatureCodec.DerIsStrict | src/lib/device-crypto.ts:137-176 | the DER form of every signature is strict: parsed back, it is one SEQUENCE of two minimal primitive INTEGERs with the unsigned values |
| SignatureCodec.DerToP1363 | src/lib/device-crypto.ts:75-132 | every input, including truncated ones, is converted or refused as specified |
| SignatureCodec.DerSignatureToRaw | src/middleware/cloudflare-access.ts:95-121 | every input is converted or comes back unchanged as specified |
| SignatureCodec.FromDerReads | src/lib/device-crypto.ts:75-132 | an input that is a SEQUENCE tag, any short or long length octets and two INTEGERs is converted to both numbers right-aligned in halves of 32, 48 or 66 octets, or refused if none fits |
| SignatureCodec.FromDerOnlyReads | src/lib/device-crypto.ts:75-132 | any other input but a 64-octet one is refused |
| SignatureCodec.ToRawReads | src/middleware/cloudflare-access.ts:95-121 | two INTEGERs behind a SEQUENCE tag and one length octet are converted to both numbers right-aligned in 32 octets, if they fit |
| SignatureCodec.ToRawOnlyReads | src/middleware/cloudflare-access.ts:95-121 | any other input comes back unchanged |
| SignatureCodec.ReadIntAt | src/middleware/cloudflare-access.ts:100-111 | one integer, right-aligned in 32 octets, or a throw |
| SignatureCodec.DerIsNotRaw | src/lib/device-crypto.ts:76-79 | a 64-octet DER form differs from the signature it encodes |
| SignatureCodec.P1363RoundTripIff | src/lib/device-crypto.ts:75-176 | the inverse returns the signature if and only if its DER form is not 64 octets long, and the DER form otherwise |
| SignatureCodec.RawRoundTripIff | src/middleware/cloudflare-access.ts:82-121 | the same for the second implementation |
| SignatureCodec.AmbiguousSignature | src/lib/device-crypto.ts:76-79 | every signature with r of 32 and s of 26 significant octets, top bits clear, has a 64-octet DER form that both inverses return unchanged |
| CanonicalPayload.FieldDecodes | src/lib/device-crypto.ts:25-35 | a length-prefixed field is cut off unambiguously, whatever it contains and whatever follows |
| CanonicalPayload.PayloadsWrittenOut | src/lib/device-crypto.ts:41-68 | an SMS payload is the length-prefixed normalised device id, nonce, timestamp, sender and body in this order, 0x1e between them; a rotation payload has the marker and the new key in the last two places |
| CanonicalPayload.SmsPayloadUnique | src/lib/device-crypto.ts:41-49 | SMS payloads are equal if and only if all five normalised fields are |
| CanonicalPayload.SmsIsRotationIff | src/lib/device-crypto.ts:55-68 | an SMS payload equals a rotation payload if and only if ids agree, the sender is the marker and the body the key |
| CanonicalPayload.SignedOctetsUnique | src/lib/device-crypto.ts:231-262 | the signed octets are equal if and only if the octets of every field are |
| CanonicalPayload.Utf8SpellsCodePoints | src/lib/device-crypto.ts:33-33 | text is spelt code point by code point in the shortest form of RFC 3629; a surrogate without its partner is spelt as U+FFFD |
| CanonicalPayload.Utf8Injective | src/lib/device-crypto.ts:33-33 | texts without lone surrogates have equal UTF-8 only if they are equal |
| CanonicalPayload.SameOctetsIff | src/lib/device-crypto.ts:33-33 | two texts have equal UTF-8 if and only if they are equal once lone surrogates are U+FFFD |
| CanonicalPayload.SignedFieldsUnique | src/lib/device-crypto.ts:231-262 | signed octets are equal if and only if every field is, once lone surrogates are U+FFFD |
| CanonicalPayload.FieldForgeableIff | src/lib/device-crypto.ts:251-254 | a different well-formed text has the same octets if and only if the text holds a lone surrogate |
| CanonicalPayload.LoneSurrogatesCollide | src/lib/device-crypto.ts:41-49 | for every message, a lone surrogate or U+FFFD as its body gives two payload strings with the same signed octets |
| QueueSweep.PhoneQueue.ProcessOutboxQueue | sms-phone-mockup/server.js:227-297 | the queue after a sweep holds the survivors of its visits, for any replies and pushes |
| QueueSweep.PhoneQueue.Deliver | sms-phone-mockup/server.js:240-293 | one exchange: the item is put off in place or spliced out, and pushed items stay behind the rest |
| QueueSweep.VisitsEachOnce | sms-phone-mockup/server.js:234-238 | the visited items are the initial queue in order, then everything pushed during the sweep, each once |
| QueueSweep.EveryVisitFares | sms-phone-mockup/server.js:258-292 | an item is tried if and only if it is not in flight and its retry time is absent, zero or no later than the sweep's start; it leaves exactly when delivered or failed a fifth time; retries are 4, 8, 16 or 32 s (0.5 s after a refresh), so the cap never binds |
| QueueSweep.SurvivorsInOrder | sms-phone-mockup/server.js:234-297 | the queue left by a sweep is, in visiting order, the passed items as they were and the put-off ones as rewritten |
| QueueSweep.NothingLeftDelivering | sms-phone-mockup/server.js:236-266 | no item is left in flight |
| CommentStripper.FindNewline | scripts/port-gateways/analyze.py:56-57 | the next newline or the end |
| CommentStripper.FindBlockEnd | scripts/port-gateways/analyze.py:60-61 | after the next end mark or the end |
| CommentStripper.StripComments | scripts/port-gateways/analyze.py:27-70 | the walker equals the stripping function |
| CommentStripper.StripIsFaithful | scripts/port-gateways/analyze.py:27-70 | from inside or outside a literal, stripping twice is stripping once and every literal survives unchanged |
| CommentStripper.StripCommentsIdempotent | scripts/port-gateways/analyze.py:28-33 | the same for a whole text, with escapes and unterminated literals |
| CommentStripper.NoCommentNoChange | scripts/port-gateways/analyze.py:27-70 | text without a hash and a slash comes back unchanged |
| CommentStripper.LineCommentGoes | scripts/port-gateways/analyze.py:55-66 | a comment after # or // goes up to the line break, which stays |
| CommentStripper.BlockCommentIsOneSpace | scripts/port-gateways/analyze.py:59-63 | a block comment becomes one space, up to its first end mark or the end of the text |
| CommentStripper.LiteralStays | scripts/port-gateways/analyze.py:38-54 | a literal in double or single quotes survives as it is, escaped quotes and comment marks included |
| CommentStripper.UrlStays | scripts/port-gateways/analyze.py:28-33 | a // inside a literal survives while a // comment behind it goes |

## Left out

- The break-glass mode `LEDGER_OUTBOX_ENABLED === 'false'`, except as a source of failures after the commit.
- Der.ParseEncode: requires tags and lengths below 2^31, as larger ones are not read back.
- DerDecode.ParseAsn1Node: a terminating method, so it returns `WrappedLength` where the program would continue with a negative length; `DerAsWritten` and `DerTermination` say what the program does there.
- DerDecode.ParseAll: the same.
- DerDecode.OidToParts: returns the parts; joining them with dots is not modelled.
- DeviceNonces.SlidingWindow: requests are served one after the other; concurrent requests may each pass the count before either inserts. Key rotations are not messages and are not counted.
- DeviceGate.NonceGate.ReceiveSms: refusals by revocation, tier policy and SIGNATURE_REQUIRED come before these checks and are not modelled.
- DeviceGate.NonceGate.ReceiveBatch: items carry their resolved nonce, timestamp and signature; the fallback to batch-level values is a field lookup. The same refusals are left out.
- DeviceGate.NonceGate.RotateKey: the stored key is not part of the model.
- LedgerObject.LedgerDO.Alarm: the readings after D1's answer are one; the snapshot's own D1 write is a yes-or-no parameter, and its caching of the merchant id is not modelled.
- LedgerObject.LedgerDO.PostTransaction: balances are mathematical integers; only the validation sums are shown to stay in the exact range of a double.
- Deadline.AlarmDeadline: handlers run to completion; interleaving is treated in `Protocol`, which says nothing about time.
- Posting fields that are only copied (reference type and id, description, account names, update times) and texts of error messages.
- Payload fields of the wrong JavaScript type other than a non-integer amount and an unknown direction.
- Read-only calls (`getBalances`, `getTransactionStatus`, `outboxStats`, `recentPostedTxIds`), the worker-side service and the reconciliation replay.
- Device tiers, revocation, attestation, the pairing attempt counter and real cryptography; their verdicts are parameters or absent.
- The phone's clear-history call, which invalidates the sweep's index during an await.
- HTTP routing, CRUD controllers, gateways, rendering and the code generator.

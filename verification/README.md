# Pact network client and backend: a Dafny model

The network insures API calls of agents. This project models the parts of its code whose correctness
depends on order, state or layout, most of them in TypeScript, and proves what they are for.

| module | what it models |
|---|---|
| `RecordFile`, `Storage` | the monitor's record file: the JSONL string, the store that appends and rewrites it, the statistics |
| `Delivery`, `Sync` | the asynchronous delivery of the records: any interleaving of appends, flushes, backend answers and shutdown |
| `Signing` | the text of a batch that is signed |
| `MergePlan`, `MergeRun`, `MergeTransaction`, `MergeResults` | the migration that merges providers with the same canonical hostname: planning, the transaction, what a commit means |
| `ObjectGraph`, `WalkOrder`, `ObjectWalk` | the searches for a protocol error in an arbitrary object graph, and which one they find |
| `FeeRecipients`, `FeeProgram` | the two validators of fee recipients, the checks of the programs behind them, and the split of a premium |
| `AccountLayouts`, `SettleAccounts` | the account decoders and the positional account list of `settle_batch` |
| `ClassificationSplit` | the migration that splits an error class, up and down |
| `Identifiers` | slugs and call ids |
| `Wrappers`, `Text` | options and results; characters |

**Delivery.** A flush posts the first unsynced records, waits, and then marks "the first n unsynced
records" by position. `Delivery` is a system of events, one for each synchronous section of the code,
with any number of senders on one file, and a backend that processes a posted batch record by record,
whatever it answers and whenever. The log of the backend is kept as file positions, so that equal
records stay apart. With one sender the results hold for every initial file, every batch size and every
run; `TwoSendersLoseARecord` is a run with two senders on one file in which a record is marked and never
stored, for every file and all batch sizes. `samples/demo/external-agent.ts:460-511` sets up two monitors
on one default path. Once nothing is appended and every answer is a success, `DrainsInCeil` says how far the
file is drained after each answer, whatever else happens. The methods of `Sync` are each shown to be one
event.

**Merge.** `MergeRun.Merged` states the outcome in one step, by the heir of each provider;
`MergeTransaction` runs the statements plan by plan on a database object and is proved to commit exactly
that, or to abort exactly on a conflict and leave everything as it was. `MergeResults` then speaks of
hostnames only.

**Walks.** The two searches enter no object twice. They are shown to find something exactly if there is
something to find along their steps, which are spelled out without the loops, and to find what a plain
search, which remembers only its own path and stops at the first hit, finds first (`SearchIsFirst`).

**Where the code and its comments differ**, the model follows the code, and says exactly when the comment
holds:

- `packages/protocol-v1-client/src/errors.ts:187-188` promises to look behind `cause` and
  `transactionError`; the walk follows enumerable properties only, and the `cause` of an Error is not one,
  nor is a getter. A code is missed exactly if such a hidden property of an object that the walk reaches
  leads to it (`CodeMissedIff`, `ErrorMissedIff`, `PromiseKeptIff`, `HiddenCauseIsMissed`).
- `packages/protocol-v1-client/src/helpers.ts:5-6` and `packages/protocol-evm-v1-client/src/helpers.ts:52-57`
  say that a list that passes the validator passes the program. The validators do what
  `parse_and_validate` does (`ParseAndValidate`), but the programs go on. The Solana program accepts a list
  exactly if the validator does, the treasury takes a share, no affiliate is paid into the vault, and the
  affiliates' token accounts are supplied, in order (`PreflightIff`). The EVM contract does exactly if the
  first three hold and no affiliate is the zero address (`ContractPreflightIff`). `AcceptedButRejected` and
  `AffiliateRejected` are lists for each of these conditions.
- `packages/backend/migrations/20260422-canonicalize-hostnames.ts:157-160` calls the move of
  premium_adjustments conflict-free; it can conflict, and does so exactly if two losers of one hostname hold
  rows of an agent that the winner lacks (`ConflictMeaning`, `MoveCanConflict`).
- `packages/backend/migrations/20260503-split-error-classification.ts:110-112` says that going up again
  restores the split; that holds exactly if every row agrees with its status code (`UpUndoesDownIff`).
- `scripts/devnet/verify-network.ts:209` speaks of 32 hexadecimal characters; only the length is checked
  (`ParsedPrintsBackIff`, `NoDigitsParse`).

**Assumptions.** JSON encoding is known through `Codec.Lawful`: an encoded record decodes to itself, is
enclosed in braces and holds no raw newline (RFC 8259, sections 4 and 7). A success answer means that the
backend has processed the whole batch; any other answer, or none, leaves it open how much of the batch it
has processed and will still process. To process a record means to run the body of the loop in
`packages/backend/src/routes/records.ts:126-197` on it, which skips a record whose hostname does not parse,
and, of an agent with a public key, one that is there already. `Array.prototype.sort` orders distinct keys
in the same way whatever order they come in, and a value that JSON prints shows where it ends and what it
is. `canonicalHostname` is a partial function that maps its results to
themselves. The NOT EXISTS of an UPDATE looks at the table as it was before the statement. Public keys
are their 32 bytes, because base 58 is injective.

## Model

| member | source | states |
|---|---|---|
| RecordFile.SplitJoin | packages/monitor/src/storage.ts:85 | splitting at newlines undoes joining with newlines, for lines without a newline |
| RecordFile.TrimMeaning | packages/monitor/src/storage.ts:83 | trimming takes white space off both ends and nothing else |
| RecordFile.DecodeAllMeaning | packages/monitor/src/storage.ts:85 | the lines decode one by one, and not at all if one does not parse |
| RecordFile.ReadRepresented | packages/monitor/src/storage.ts:81-86 | a file that represents a sequence of records (none, blank or with lines) reads as exactly that sequence |
| RecordFile.AppendRepresented | packages/monitor/src/storage.ts:17-19 | appending to the file appends to the sequence, also when the file is missing or holds only a newline |
| RecordFile.RewriteRepresented | packages/monitor/src/storage.ts:34 | what markSynced writes represents the records it writes, also when there are none |
| RecordFile.PendingMeaning | packages/monitor/src/storage.ts:21-23 | the pending positions are those of the unsynced records, ascending, and list the records that getUnsynced returns |
| RecordFile.PendingFromMark | packages/monitor/src/storage.ts:25-33 | marking n records takes the first n off the pending positions and no other |
| RecordFile.MarkFlips | packages/monitor/src/storage.ts:25-33 | marking flips the flag at exactly the first n pending positions |
| Storage.PactStorage.Append | packages/monitor/src/storage.ts:17-19 | the new file; the records of a well-formed file grow by the record |
| Storage.PactStorage.ReadAll | packages/monitor/src/storage.ts:81-86 | on a file that represents some records (none, blank or with lines) it returns exactly these |
| Storage.PactStorage.MarkSynced | packages/monitor/src/storage.ts:25-35 | the file is rewritten with the first count unsynced records marked; it stays as it was when it does not parse |
| Storage.PactStorage.GetStats | packages/monitor/src/storage.ts:37-68 | every provider's calls and rate are exact, the calls sum to the total, the overall rate is the call-weighted mean of the providers' rates |
| Storage.PactStorage.GetRecords | packages/monitor/src/storage.ts:70-79 | returns a suffix of the provider's records in file order: as long as the limit, all without one, and without the first ones for a negative one |
| Storage.OfHostMeaning | packages/monitor/src/storage.ts:72-74 | the records of a provider are exactly those with its hostname, in file order |
| Storage.StatsIgnoreSync | packages/monitor/src/storage.ts:37-68 | marking records leaves the report of every provider as it was |
| Delivery.StepKeepsInv | packages/monitor/src/sync.ts:68-141 | every event keeps the invariant: one flight, the batch is the front of the pending records, the account of positions balances |
| Delivery.MarkHitsPostedBatch | packages/monitor/src/sync.ts:96-142 | in every reachable state an answer from 200 to 299 flips exactly the posted records, which are still unsynced, and no other; any other answer, or none, leaves the file alone |
| Delivery.CopiesAtBackend | packages/monitor/src/sync.ts:68-188 | in every reachable state, also when batches are processed in part, the backend has processed a due record once if it is marked, plus once for each lost acknowledgement, plus once if it awaits its answer |
| Delivery.ExactlyOnceInOrder | packages/monitor/src/sync.ts:68-142 | if no record was processed without its acknowledgement arriving, the backend's log is the marked positions in file order, each exactly once |
| Delivery.RunGrows | packages/monitor/src/storage.ts:17-35 | for any number of senders no record disappears, moves or changes but for its flag, which is never taken back |
| Delivery.NoPostAfterRejection | packages/monitor/src/sync.ts:85-178 | from every reachable state, after an answer 401 or 403 no continuation sends a POST, by timer, flush or shutdown; once the body is read the latch is set, auth_error has fired exactly once and the timer is off unless the listener threw |
| Delivery.LatchHasCause | packages/monitor/src/sync.ts:154-178 | the latch is set only in runs with an answer 401 or 403 |
| Delivery.OtherStatusIsTransient | packages/monitor/src/sync.ts:181-187 | any other status is one sync_error, and changes neither latch nor timer nor the count of auth_errors |
| Delivery.SingleFlight | packages/monitor/src/sync.ts:68-83 | in every reachable state at most one flush is in flight, and the guard says so |
| Delivery.DrainsInCeil | packages/monitor/src/sync.ts:55-142 | in every interleaving without appends and with success answers: after k answers the first b * k pending records are marked and stored in order, a POST is in flight only if more are left, and the file is drained after exactly ceil(n / b) answers, with no more POSTs than that |
| Delivery.NeverStuck | packages/monitor/src/sync.ts:55-142 | from every such state a run with success answers leads to the drained file |
| Delivery.FlushesNeededIsCeil | packages/monitor/src/sync.ts:99 | FlushesNeeded is n / batchSize rounded up |
| Delivery.TwoSendersLoseARecord | packages/monitor/src/sync.ts:68-76 | with two senders, on any file with something to send and for all batch sizes, a run without lost acknowledgements marks a record that is never stored |
| Sync.PactSync.Flush | packages/monitor/src/sync.ts:68-137 | flush up to its first await is the Flush event; it sends one POST, of the first batchSize unsynced records, unless one is in flight, the key was rejected or nothing is unsynced |
| Sync.PactSync.Answered | packages/monitor/src/sync.ts:139-152 | the code after fetch is the Respond event: 200 to 299 marks as many records as were sent, any other status goes on to the body, an exception ends the flush |
| Sync.PactSync.GotBody | packages/monitor/src/sync.ts:154-188 | the code after reading the body is the BodyRead event: 401 and 403 set the latch, fire auth_error once and stop the timer unless the listener throws; any other status fires sync_error |
| Sync.PactSync.Settle | packages/monitor/src/sync.ts:79-81 | the finally callback is the Finally event |
| Sync.PactMonitor.RecordCall | packages/monitor/src/wrapper.ts:142-158 | recordCall is the Append event whatever the listeners do; a failure event is emitted exactly for a counted failure |
| Sync.FailuresOverRun | packages/monitor/src/wrapper.ts:110-159 | in every run, for any number of senders, the counted failures grow by the failure events; from an empty file they are equal |
| Sync.PactMonitor.Shutdown | packages/monitor/src/wrapper.ts:193-198 | shutdown is the Shutdown event: it flushes, under the conditions of a flush, and the timer is off |
| Signing.InsertionOrderIgnored | packages/monitor/src/signing.ts:7-10 | rows with the same fields give the same text, in whatever order the fields were inserted |
| Signing.SignedTextDetermines | packages/monitor/src/sync.ts:100-115 | the text of a flush drops nothing: two batches have the same text exactly if they are the same calls in the same order |
| Signing.TextIsJson | packages/monitor/src/signing.ts:7-10 | the text is a JSON array of objects with the keys of the first record, sorted |
| Signing.FlatMeaning | packages/monitor/src/sync.ts:100-115 | which field of the call stands under each of the first six keys |
| Signing.PaymentMeaning | packages/monitor/src/sync.ts:107-114 | which field of the payment stands under each of the other eight, or null without a payment |
| MergePlan.PlanGroups | packages/backend/migrations/20260422-canonicalize-hostnames.ts:46-91 | the loop over Map and array computes the plans of the hostnames in the order of their first rows |
| MergePlan.Winner | packages/backend/migrations/20260422-canonicalize-hostnames.ts:67-73 | the winner is in the bucket, has the canonical base_url if any row has it, and is an oldest row otherwise |
| MergePlan.WinnerMeaning | packages/backend/migrations/20260422-canonicalize-hostnames.ts:67-73 | over the listing: a row with the canonical base_url if the hostname has one, otherwise the first of its oldest rows |
| MergePlan.PlanWallet | packages/backend/migrations/20260422-canonicalize-hostnames.ts:82-86 | the wallet to set is the own one of the winner, otherwise that of the first row of the hostname, in the order of the listing, that has one, otherwise none |
| MergePlan.PlansMeaning | packages/backend/migrations/20260422-canonicalize-hostnames.ts:65-90 | exactly one plan for each hostname of which something has to change, and no other |
| MergePlan.PlanMembers | packages/backend/migrations/20260422-canonicalize-hostnames.ts:69-74 | a plan's winner and losers are exactly the rows of its hostname |
| MergePlan.UnplannedIsAlone | packages/backend/migrations/20260422-canonicalize-hostnames.ts:76-80 | a row whose hostname has no plan is the only row of it and already canonical |
| MergeRun.UniqueAfterMove | packages/backend/migrations/20260422-canonicalize-hostnames.ts:157-171 | the move of premium_adjustments violates UNIQUE(agent_id, provider_id) exactly when two losers' rows of an agent meet that the winner lacks |
| MergeRun.AdjustmentsStep | packages/backend/migrations/20260422-canonicalize-hostnames.ts:161-177 | conflict-free move plus delete of the rest keep exactly the rows that survive the plan, at their heirs |
| MergeRun.UrlsStayUnique | packages/backend/migrations/20260422-canonicalize-hostnames.ts:194-205 | rewriting the winner's base_url never violates UNIQUE(base_url) |
| MergeTransaction.Database.MoveChildRows | packages/backend/migrations/20260422-canonicalize-hostnames.ts:142-184 | statements 1 to 4: the child tables after one more plan, with row counts; aborts exactly on a clash |
| MergeTransaction.Database.MergeLosers | packages/backend/migrations/20260422-canonicalize-hostnames.ts:127-191 | statements 1 to 5 place the children, delete the losers and count; they fail exactly on a clash, so the delete never meets a foreign key |
| MergeTransaction.Database.RewriteWinner | packages/backend/migrations/20260422-canonicalize-hostnames.ts:194-209 | statement 6: the winner gets the canonical base_url and the wallet |
| MergeTransaction.Database.Run | packages/backend/migrations/20260422-canonicalize-hostnames.ts:93-224 | aborts exactly on a conflict; aborted and dry runs change no table; a commit yields the merge, consistent; the counters, of a dry run too, are those of the merge (moved + dropped = the losers' adjustments) |
| MergeResults.HeirIsWinner | packages/backend/migrations/20260422-canonicalize-hostnames.ts:127-191 | the heir of a provider is the winner of its hostname, of an unparseable provider itself |
| MergeResults.ChildrenFollow | packages/backend/migrations/20260422-canonicalize-hostnames.ts:142-184 | no call record, claim or outage is lost, added, dangling or changed but for its provider, whose hostname stays |
| MergeResults.HostsAfter | packages/backend/migrations/20260422-canonicalize-hostnames.ts:186-205 | after a commit a provider keeps its hostname and no other provider has it |
| MergeResults.ParsedProviderAfter | packages/backend/migrations/20260422-canonicalize-hostnames.ts:82-86 | base_url is the hostname; the wallet is the own one, otherwise that of the first row of the hostname with a wallet, otherwise none; other columns stay |
| MergeResults.UnparsedProviderAfter | packages/backend/migrations/20260422-canonicalize-hostnames.ts:52-59 | rows whose base_url does not parse are untouched |
| MergeResults.OneAdjustmentPerHost | packages/backend/migrations/20260422-canonicalize-hostnames.ts:157-177 | after a commit exactly one adjustment for each agent and hostname that had any |
| MergeResults.AdjustmentAfter | packages/backend/migrations/20260422-canonicalize-hostnames.ts:157-177 | row by row: an adjustment stays unless its provider loses and the winner has one for the agent; it is then at the winner, otherwise unchanged; none is added |
| MergeResults.CountersMeaning | packages/backend/migrations/20260422-canonicalize-hostnames.ts:115-209 | each counter of the summary is the number of rows moved, dropped, deleted or rewritten, found by comparing the tables before and after |
| MergeResults.ConflictMeaning | packages/backend/migrations/20260422-canonicalize-hostnames.ts:161-171 | the abort condition in terms of the stored rows, both directions |
| MergeResults.MoveCanConflict | packages/backend/migrations/20260422-canonicalize-hostnames.ts:157-171 | sound tables on which the move conflicts |
| MergeResults.NothingLeftToDo | packages/backend/migrations/20260422-canonicalize-hostnames.ts:25 | planning again on the committed tables finds nothing: the migration is idempotent |
| ObjectWalk.TryExtractProtocolError | packages/protocol-v1-client/src/errors.ts:181-215 | terminates on cyclic graphs; finds an error iff an object with a numeric Custom is reachable through elements of arrays and enumerable properties of other objects, and reports the code that a plain depth-first search meets first |
| ObjectWalk.InstructionErrorFound | packages/protocol-v1-client/src/errors.ts:181-215 | from { InstructionError: [index, { Custom: code }] } exactly this code is reachable |
| ObjectWalk.SolanaWalker.Walk | packages/protocol-v1-client/src/errors.ts:190-209 | sound for reachable objects; when nothing is found the visited objects are closed and carry no code; result and visited objects are those of the search that remembers |
| ObjectWalk.ShownInOrder | packages/protocol-v1-client/src/errors.ts:204-207 | the enumerable properties are visited one by one, in their order |
| ObjectWalk.CodeMissedIff | packages/protocol-v1-client/src/errors.ts:187-208 | a code behind the promised properties is reachable for the walk, or behind a hidden one of an object that the walk reaches, and only then |
| ObjectWalk.ErrorMissedIff | packages/protocol-v1-client/src/errors.ts:187-208 | where the walk finds nothing, an error is missed exactly if a hidden promised property of a reached object leads to one |
| ObjectWalk.PromiseKeptIff | packages/protocol-v1-client/src/errors.ts:187-208 | the walk reaches all objects that the comment promises exactly if no hidden promised property leads out of what it reaches |
| ObjectWalk.ShownIsKept | packages/protocol-v1-client/src/errors.ts:187-208 | no code is missed if every cause and transactionError is enumerable and not on an array |
| ObjectWalk.HiddenCauseIsMissed | packages/protocol-v1-client/src/errors.ts:187-208 | a graph with a promised code that is not found |
| ObjectWalk.TryExtractPactError | packages/protocol-evm-v1-client/src/errors.ts:136-158 | terminates; finds an error iff a string with a known selector is reachable through elements, enumerable properties and the six named ones, and returns the error that a plain depth-first search meets first |
| ObjectWalk.DecodeMeaning | packages/protocol-evm-v1-client/src/errors.ts:111-121 | 0x, eight characters and any payload, none included, decode to what the table has for the first ten characters in lower case |
| ObjectWalk.DecodeNothing | packages/protocol-evm-v1-client/src/errors.ts:112-113 | a string of less than ten characters, or that does not begin with 0x, decodes to nothing |
| ObjectWalk.RevertDataFound | packages/protocol-evm-v1-client/src/errors.ts:136-158 | from { data: "0x..." } exactly the error of its selector is reachable, also without a payload |
| ObjectWalk.EvmWalker.Walk | packages/protocol-evm-v1-client/src/errors.ts:138-156 | sound for reachable strings; when nothing is found the visited objects are closed and no string of theirs decodes; result and visited objects are those of the search that remembers |
| WalkOrder.SearchIsFirst | packages/protocol-evm-v1-client/src/errors.ts:137-156 | on every graph, for every order of the values: a walk that enters no object twice finds the same as a search that remembers only its own path |
| ObjectWalk.EvmInOrder | packages/protocol-evm-v1-client/src/errors.ts:144-154 | the six names in their order, then the elements of an array, then the enumerable properties |
| ObjectWalk.DataDecides | packages/protocol-evm-v1-client/src/errors.ts:144-150 | a thrown object whose own data decodes gives that error, whatever else it holds |
| ObjectWalk.PriorityPass | packages/protocol-evm-v1-client/src/errors.ts:144-154 | the named properties first never lose an error, and add one exactly if a hidden one, of an object that Object.values reaches, leads to it |
| ObjectWalk.PriorityPassSelectors | packages/protocol-evm-v1-client/src/errors.ts:144-154 | for all tables together: the pass changes nothing exactly if it leads to no further selector |
| ObjectWalk.PriorityPassFindsHiddenCause | packages/protocol-evm-v1-client/src/errors.ts:144-150 | with a hidden cause they do add one |
| FeeRecipients.ValidateSolana | packages/protocol-v1-client/src/helpers.ts:70-135 | the verdict is the first failure in the order of the checks, or valid |
| FeeRecipients.ValidateEvm | packages/protocol-evm-v1-client/src/helpers.ts:59-125 | the same with destinations compared in lower case |
| FeeRecipients.AcceptsIff | packages/protocol-v1-client/src/helpers.ts:70-135 | accepted iff lengths, caps, kinds, one treasury, distinct destinations and the sum are in order |
| FeeRecipients.VerdictIsUnique | packages/protocol-v1-client/src/helpers.ts:67-68 | a list has only one verdict |
| FeeRecipients.AcceptancePermuted | packages/protocol-v1-client/src/helpers.ts:93-134 | acceptance does not depend on the order of the recipients |
| FeeRecipients.EvmIsSolanaOnKeys | packages/protocol-evm-v1-client/src/helpers.ts:105-112 | the EVM verdict is the Solana verdict on lower-cased destinations |
| FeeProgram.ParseAndValidate | packages/program/programs-pinocchio/pact-network-v1-pinocchio/src/fee.rs:44-90 | too many entries and too few bytes first; then the error is the one that the validator's verdict names, for the same first failure |
| FeeProgram.SubstituteTreasuryDestination | packages/program/programs-pinocchio/pact-network-v1-pinocchio/src/fee.rs:96-106 | in place, the treasury entries get the vault and nothing else changes |
| FeeProgram.ValidatePostSubstitution | packages/program/programs-pinocchio/pact-network-v1-pinocchio/src/fee.rs:128-161 | each error exactly for its rule: no treasury, several, one that takes nothing, a repeated destination |
| FeeProgram.ValidateAffiliateAtas | packages/program/programs-pinocchio/pact-network-v1-pinocchio/src/fee.rs:175-217 | passes exactly if the k-th account is an initialised token account of the mint, at the k-th affiliate's destination |
| FeeProgram.RegisterRecipients | packages/program/programs-pinocchio/pact-network-v1-pinocchio/src/instructions/register_endpoint.rs:150-205 | exactly when an explicit list is accepted, and when the configuration's defaults are, which are not parsed again; otherwise the error of the first check that fails |
| FeeProgram.ValidateContract | packages/program-evm/protocol-evm-v1/src/libraries/FeeValidation.sol:25-113 | accepts exactly the acceptable lists that keep the rules after substitution and have no affiliate at the zero address; otherwise the error of the first check that fails |
| FeeProgram.PreflightIff | packages/protocol-v1-client/src/helpers.ts:5-6 | the Solana program accepts exactly the lists that the validator accepts, whose treasury takes a share and is paid apart, and whose affiliates' token accounts are supplied |
| FeeProgram.ContractPreflightIff | packages/protocol-evm-v1-client/src/helpers.ts:52-57 | the EVM contract accepts exactly the lists that the validator accepts, whose treasury takes a share and is paid apart, and without a zero address |
| FeeProgram.AcceptedButRejected | packages/protocol-v1-client/src/helpers.ts:63-135 | lists that both validators accept and both programs reject, one for each missing rule on the treasury |
| FeeProgram.AffiliateRejected | packages/protocol-v1-client/src/helpers.ts:63-135 | a valid list that pays the treasury apart, rejected on EVM exactly at the zero address, on Solana exactly without the token account |
| FeeRecipients.SplitIsSafe | packages/program/scripts/trigger-premium-demo.ts:227-232 | for an accepted list shares are at most the allowed part of the premium; rounding favours the pool by less than one unit a recipient |
| AccountLayouts.FieldsReadBack | packages/protocol-v1-client/src/state.ts:142-156 | little-endian numbers read at any offset are written as the same bytes |
| AccountLayouts.ByteOrder | packages/protocol-v1-client/src/state.ts:150-154 | the least significant byte of a number comes first |
| AccountLayouts.FeeRecipientLaws | packages/protocol-v1-client/src/state.ts:69-88 | a recipient slot is read as written and written back as read |
| AccountLayouts.FeeRecipientBytes | packages/protocol-v1-client/src/state.ts:62-88 | the 48 bytes of a slot are kind, padding, destination, share, padding |
| AccountLayouts.DecodeFeeRecipientArray | packages/protocol-v1-client/src/state.ts:91-106 | the loop decodes the active slots, or gives the first error |
| AccountLayouts.RecipientsReadBack | packages/protocol-v1-client/src/state.ts:91-106 | the array is read as written, whatever the unused slots hold |
| AccountLayouts.RecipientsWriteBack | packages/protocol-v1-client/src/state.ts:91-106 | writing back what was read changes nothing |
| AccountLayouts.CoveragePoolLaws | packages/protocol-v1-client/src/state.ts:138-157 | both laws, for every value and every buffer |
| AccountLayouts.CoveragePoolBytes | packages/protocol-v1-client/src/state.ts:138-157 | the bytes of the account are the decoded fields in the order of the account, with their paddings |
| AccountLayouts.EndpointConfigLaws | packages/protocol-v1-client/src/state.ts:208-238 | both laws, up to a paused byte above 1 |
| AccountLayouts.EndpointConfigDecodes | packages/protocol-v1-client/src/state.ts:208-238 | decodes iff long enough, at most 8 recipients, legal kinds |
| AccountLayouts.EndpointConfigBytes | packages/protocol-v1-client/src/state.ts:208-238 | the bytes before the recipients are the decoded fields in order, with their paddings |
| AccountLayouts.RecipientSlots | packages/protocol-v1-client/src/state.ts:91-106 | the k-th decoded recipient is the k-th slot behind the fields; there are as many as the count byte says |
| AccountLayouts.DecodeCallRecord | packages/protocol-v1-client/src/state.ts:317-327 | decodes iff long enough and the status is legal |
| AccountLayouts.CallRecordLaws | packages/protocol-v1-client/src/state.ts:317-341 | both laws, up to a breach byte above 1 |
| AccountLayouts.CallRecordBytes | packages/protocol-v1-client/src/state.ts:317-341 | the bytes of the account are the decoded fields in order, with their paddings |
| AccountLayouts.SettlementAuthorityLaws | packages/protocol-v1-client/src/state.ts:359-373 | both laws |
| AccountLayouts.SettlementAuthorityBytes | packages/protocol-v1-client/src/state.ts:359-373 | the same for this account |
| AccountLayouts.TreasuryLaws | packages/protocol-v1-client/src/state.ts:393-406 | both laws |
| AccountLayouts.TreasuryBytes | packages/protocol-v1-client/src/state.ts:393-406 | the same for this account |
| AccountLayouts.ProtocolConfigLaws | packages/protocol-v1-client/src/state.ts:444-463 | both laws |
| AccountLayouts.ProtocolConfigDecodes | packages/protocol-v1-client/src/state.ts:444-463 | decodes iff long enough, at most 8 recipients, legal kinds |
| AccountLayouts.ProtocolConfigBytes | packages/protocol-v1-client/src/state.ts:444-463 | the bytes before the recipients are the decoded fields in order, with their paddings |
| AccountLayouts.DefaultSlots | packages/protocol-v1-client/src/state.ts:91-106 | the same for the default recipients |
| AccountLayouts.FixedSizeErrors | packages/protocol-v1-client/src/state.ts:69-82 | a slot and each account without recipients: exactly when it is too short, with the length it needs, or has an unknown code, and decodes otherwise |
| AccountLayouts.ConfigErrors | packages/protocol-v1-client/src/state.ts:91-106 | an account with recipients: too short first, then too many recipients, then the first unknown kind |
| SettleAccounts.AccountListForBatch | packages/protocol-v1-client/src/helpers.ts:174-205 | 5 accounts and 5 + N for each event; slot 0 is the settler, writable, and alone signs; slots 1 to 4 are authority, token program, system program and config, read only; all later ones are writable; an error iff the inputs do not align |
| SettleAccounts.ReadBack | packages/protocol-v1-client/src/helpers.ts:148-164 | a positional reader with the endpoints' counts recovers every event's accounts |
| SettleAccounts.ListDeterminesEvents | packages/protocol-v1-client/src/helpers.ts:141-146 | two batches with the same list and counts have the same accounts, event by event |
| SettleAccounts.EventPlace | packages/protocol-v1-client/src/helpers.ts:148-164 | event i starts at 5 + the sizes of those before: call record, pool, vault, endpoint and agent, then its fee recipients in order; none signs |
| SettleAccounts.FeeAtasMatchEndpoint | packages/protocol-v1-client/src/helpers.ts:211-231 | matches iff count and every destination agree; otherwise the first slot that differs |
| SettleAccounts.FeeSlotsAreDestinations | packages/protocol-v1-client/src/helpers.ts:207-231 | after the pre-flight the fee slots of each event are the endpoint's destinations, in order |
| ClassificationSplit.Database.Up | packages/backend/migrations/20260503-split-error-classification.ts:51-97 | the ordered statements give the row-wise split; fails iff a CHECK cannot be added |
| ClassificationSplit.Database.Down | packages/backend/migrations/20260503-split-error-classification.ts:99-135 | the ordered statements give the row-wise collapse; fails iff a CHECK cannot be added |
| ClassificationSplit.Database.Run | packages/backend/migrations/20260503-split-error-classification.ts:143-157 | commits the whole migration or rolls back; never fails on a database of either schema going the usual way |
| ClassificationSplit.UpMeaning | packages/backend/migrations/20260503-split-error-classification.ts:64-96 | a call with class error becomes client_error exactly for a status from 400 to 499, server_error otherwise, a claim server_error; nothing else changes; the two new CHECKs |
| ClassificationSplit.DownMeaning | packages/backend/migrations/20260503-split-error-classification.ts:110-134 | both split classes become error again, and nothing else changes; the two old CHECKs |
| ClassificationSplit.UpFits | packages/backend/migrations/20260503-split-error-classification.ts:86-96 | the new CHECKs fit iff no row holds an unknown value, and always for both schemas |
| ClassificationSplit.DownUndoesUp | packages/backend/migrations/20260503-split-error-classification.ts:27-32 | up and down restore every legacy database |
| ClassificationSplit.UpIsIdempotent | packages/backend/migrations/20260503-split-error-classification.ts:24-25 | up twice is up once; up, down, up is up |
| ClassificationSplit.UpUndoesDownIff | packages/backend/migrations/20260503-split-error-classification.ts:110-112 | down and up restore a new database iff every split error agrees with its status code |
| Identifiers.SlugsAgree | packages/protocol-evm-v1-client/src/encode.ts:35-43 | the two slug encodings agree exactly on slugs of at most 16 bytes; the EVM one rejects the others |
| Identifiers.SlugMeaning | packages/protocol-v1-client/src/pda.ts:31-36 | byte i of a slug is byte i of the text, or 0 behind it |
| Identifiers.SlugCollision | packages/protocol-v1-client/src/pda.ts:31-36 | two slugs of at most 16 bytes collide iff they differ in NULs at the end only |
| Identifiers.HexFormIsNoSlug | packages/protocol-evm-v1-client/src/encode.ts:46-50 | no string of the hexadecimal form is a slug that could be encoded |
| Identifiers.SlugOrHex | packages/protocol-evm-v1-client/src/encode.ts:46-50 | asSlugBytes16 gives the text of the one identifier that the input stands for, equal exactly for equal identifiers, and its results stand for themselves |
| Identifiers.ParseCallId | scripts/devnet/verify-network.ts:206-216 | the loop reads 16 pairs of the text without dashes, or reports the length |
| Identifiers.PairMeaning | scripts/devnet/verify-network.ts:212-214 | two digits are their number, high one first; a sign or blank before a digit does not count, what is no digit ends the number |
| Identifiers.CallIdRoundTrip | scripts/smoke-tier2/05-fire-50-calls.ts:50-54 | a printed id, with dashes anywhere, parses to the id |
| Identifiers.ParsedPrintsBackIff | scripts/devnet/verify-network.ts:206-216 | what is parsed prints back to the text iff the text is hexadecimal |
| Identifiers.NoDigitsParse | scripts/devnet/verify-network.ts:212-214 | every text of the right length without a hexadecimal digit is read as zeros |

## Left out

- The programs and contracts behind the clients, but for their checks of fee recipients.
- The delivery model has no crash or restart, no failing file system, and no rejected promise of the flush that shutdown does not await.
- The Ed25519 signature, and what a posted row becomes in the backend's tables.
- `canonicalHostname` itself: a URL with a scheme that the URL standard does not treat as special may give a host that is not its own canonical hostname, and such rows are outside the model's law.
- The migration reads the providers before its transaction begins; rows that others write meanwhile are not modelled.
- Console output, the loser rows' name and category, and the on-chain state behind a provider.
- Property getters, proxies and thrown exceptions inside the object walks; a property is a value, and a number in `Custom` is an integer.
- `getStats` on hostnames that are names of members of Object.prototype, where a plain JavaScript object as a dictionary misleads the code; rates are exact fractions and latencies integers.
- Fee shares of a negative bps value, which the validators accept but the 16-bit wire field cannot hold; fractional bps.
- `String.toLowerCase` outside ASCII, and UTF-16: a character is one code unit.
- `padFeeRecipients`, the instruction builders, the PDA derivations, `readSplTokenAta` and `getAgentInsurableState`: single expressions or one decision tree each.
- The classifier of HTTP answers and the payment extraction: given data of a record.

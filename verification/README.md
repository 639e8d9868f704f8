# Attestia, modelled and proved in Dafny

Attestia is a financial-truth infrastructure: an append-only hash-chained event log, Merkle inclusion proofs,
a double-entry ledger on decimal strings, a three-way reconciler, an append-only state registrar, and vault and
treasury workflows. This project models the parts of it that carry guarantees over unbounded runs or inputs and
proves those guarantees. Pure parts are functions; objects that update their fields are classes; loops are loops.
Every method is proved against a specification function or relation, and the guarantees are lemmas about those.

`dafny verify dfyconfig.toml` checks the whole project.

## Files

| area | files |
|---|---|
| shared | `Wrappers`, `Decimal`, `Grouping` |
| event log | `HashChain`, `ChainFaults` (reports fault by fault), `EventLog`, `LogProtocol` (all interleavings), `LogForks` (what a lost lockfile leads to), `RecordCodec`, `EventStore` (the two stores as objects), `StoreRuns`, `AppendVersions` (expected versions) |
| Merkle proofs | `Merkle`, `MerkleTree`, `Attestation` |
| ledger and money | `MoneyMath`, `LedgerModel`, `LedgerRestores`, `LedgerScales`, `TrialBalance`, `Ledger`, `AccountBalance`, `AccountingEquation` |
| reconciler | `Matching`, `IntentLedgerMatcher`, `ChainMatchers`, `Reconciler`, `ReconcilerScope`, `MatchStatuses`, `ChainStatuses` (reports read off the records), `CrossChain` |
| registrar | `RegistrarModel`, `RegistrarVerdicts` (what refusals name), `RegistrarRuns`, `RegistrarSnapshots`, `RegistrarLineage`, `RegistrarAcceptance`, `StructuralRegistrar` |
| vault | `VaultModel` (on integers), `VaultHistory` (how a status is earned), `Vault` (on strings, refining `VaultModel`) |
| treasury | `DistributionModel`, `Distribution`, `DistributionEffects`, `DistributionRuns`, `Transfers`, `Funding` |

## Assumptions

- SHA-256 is an arbitrary function. Security claims read "or here is a collision": the two colliding inputs are
  computed by a function (`Merkle.Conflict`, `Merkle.ListConflict`, `HashChain.HeadConflict`,
  `Attestations.BindingConflict`), because a collision of course exists.
- RFC 8785 canonicalization is an arbitrary injective text that ends in a brace; JSON serialization of a record is
  an arbitrary text on one line that reads back and of which no proper prefix reads as a record. `RecordCodec` gives
  an encoding that meets all of this.
- One character of the log file is one byte. The code takes the size from decoded text, which equals the file size
  for valid UTF-8 only.
- Writes land as prefixes, and only stores write the file, by appending. The pid is written to the lockfile in one
  piece. Loading reads the file in one step (writers only append, so a slower read sees what one step at its end would).
  A pid may be reused by a later process.
- Numbers of decimals of an engine are natural numbers; amounts, indices and sizes are unbounded integers, as bigint is.
- An optional string that the code only tests for truthiness is modelled by the empty string when absent.
- Timestamps, clocks and ids of reports are inputs or left open.

## Where a promise fails, and exactly when it holds

- The trial balance is keyed by the joined text `account::currency`, and two entries in different currencies can
  share a key. `TrialBalance.ConfusedCurrenciesFail` is a run of accepted appends whose trial balance throws;
  `TrialBalance.TrialBalanceNeverThrowsExactly` gives the exact condition on the currencies in use. Balances of a
  single account are never affected (`AccountBalances.ComputeAccountBalance`).
- The comment on stale locks calls a race of two breakers safe because only one wins the re-create. The loser may have
  probed the old pid and then unlink the winner's lockfile: `LogProtocol.TwoHolders` ends with two instances inside
  append. Unlinking is safe exactly when nobody is inside append (`LogProtocol.RemovalIsSafeExactly`), which holds
  when no lockfile is created between one instance's reading of a pid and its unlinking
  (`LogProtocol.UnracedIsClean`). The log theorems are about runs whose unlinks are safe; after an unsafe one lock
  and size check together do not prevent a fork: `LogForks.RaceForks` continues the race to a log in which one position
  stands twice and which no store can open, and `LogForks.RemovalKeepsLogExactly` gives the same exact condition.
- A pid write that fails after the lockfile was created leaves an empty lockfile that no later append can get past
  (`LogProtocol.EmptyLockStays`); the source names this limit and asks the operator to delete the file.
- The ledger compares debits and credits in smallest units of each entry's own scale. An accepted batch balances as
  money exactly when each currency is used at one scale (`LedgerScales.AcceptedBalancesExactly`).
- `allReconciled` has its plain meaning for all inputs with given entry ids exactly when no id is repeated
  (`Reconciliation.PlainMeaningExactly`): with a repeated id it can be true although a named intent does not exist.
  `Reconciliation.AllReconciledExactly` says what it means in general.
- A scope filters intents, entries and events by different fields, so a reconciled book may not reconcile within a
  scope: `ReconcilerScope.ScopeKeepsWellExactly` says for which scopes it always does.
- Double-counting prevention can drop a transfer altogether when the injected settlement map has a cycle:
  `CrossChain.AcyclicExactly` is an if-and-only-if.
- The comment in the source calls a snapshot's lineage acyclic and root-reachable by construction. With invariants
  other than the initial ones a registrar can accept a state that descends from its own descendant
  (`RegistrarSnapshots.CyclicAncestryIsRefused`) or whose parent was never registered
  (`RegistrarSnapshots.UnregisteredParentIsRefused`), and restoring the snapshot is then refused.
  `RegistrarSnapshots.RestorableExactly` is the exact condition on the history.
- A restored registrar answers like the original except for lineages, which start anew at the snapshot, as the comment
  in the source has it: `RegistrarLineage.SameLineageExactly` says when they are the same.
- Entry ids of two distribution plans can meet when one plan id continues the other after a colon, and the second plan
  can then never be executed (`DistributionRuns.IdsAlwaysFreeExactly`).
- The comment on the append-only error says that no state changes when it is thrown; the code has already moved the
  order counter by then. The model follows the code, and the error is proved unreachable.
- An append is atomic across a crash exactly when it is of one event (`EventLog.AtomicExactly`): of more, any prefix
  of its records is what some run leaves (`LogProtocol.TornAppendSurvives`).

## Model

| member | source | states |
|---|---|---|
| LogProtocol.EveryRunKeepsTheLog | packages/event-store/src/jsonl-store.ts:324-492 | In every interleaving of any number of store instances that open, lock, check, repair, write any prefix, fail, crash, read, probe and unlink stale locks and reopen one file, as long as no lockfile is unlinked as stale while an instance is inside append: loading gives exactly the readable log, it is one unforked chain at positions 1..n with gap-free versions per stream, verification reports no fault, and it consists of the initial events followed, attempt by attempt, by a prefix of each batch, the whole batch if the append returned; every batch carries its caller's events |
| LogProtocol.EveryStepIsExclusiveAndAppends | packages/event-store/src/jsonl-store.ts:853-1030 | In every such run at most one instance is between acquiring and releasing the lock, it holds the lockfile in its own name, and any further step only extends the file and the readable log |
| LogProtocol.ReopenNeverRefused | packages/event-store/src/jsonl-store.ts:245-320 | In every such run a live process that opens the file is never refused, even while another instance is in the middle of a write |
| LogProtocol.SizeCheckIsExact | packages/event-store/src/jsonl-store.ts:1051-1085 | The size check under the lock refuses exactly when something was added to the file since the instance computed its cursor |
| LogProtocol.BeginBatch | packages/event-store/src/jsonl-store.ts:381-426 | Records built from a cursor that fits its log are the batch that continues the log, keep it unforked and gap-free, and carry the caller's events |
| LogProtocol.ChunkStep | packages/event-store/src/jsonl-store.ts:1093-1103 | Writing any further piece of a batch keeps the readable log good and accounted for |
| LogProtocol.CommitStep | packages/event-store/src/jsonl-store.ts:450-465 | Committing after the last byte makes the in-memory cursor fit the file and the attempt whole |
| LogProtocol.NewlineStep | packages/event-store/src/jsonl-store.ts:428-448 | The newline that repairs a torn tail changes no readable event |
| LogProtocol.BreakStep | packages/event-store/src/jsonl-store.ts:967-1016 | Reading the pid and probing it change nothing that the log depends on, nor does unlinking while no instance is inside append |
| LogProtocol.OpenStepInv | packages/event-store/src/jsonl-store.ts:675-811 | An instance that loads the file at any moment, also mid-write, gets a cursor that fits what it read |
| LogProtocol.NextKeepsInv | packages/event-store/src/jsonl-store.ts:324-492 | Every step of every instance, every process start and every crash, except unlinking while an instance is inside append, keeps the invariant and only extends the file and the log |
| LogProtocol.AfterAnyRunAReopenedStoreAppends | packages/event-store/src/jsonl-store.ts:324-492 | After any such run that left the lock free, a reopened store with no interference appends: the log grows by exactly the batch that continues it and the append returns |
| LogProtocol.ReopenedStoreAppends | packages/event-store/src/jsonl-store.ts:324-492 | The same from any state with the invariant, and the live cursor afterwards is what a further reopening would load |
| LogProtocol.UnracedIsClean | packages/event-store/src/jsonl-store.ts:884-1016 | Runs in which no lockfile is created while an instance is between reading a pid and unlinking never unlink the lockfile of an instance inside append, so all of the above holds of them |
| LogProtocol.RemovalIsSafeExactly | packages/event-store/src/jsonl-store.ts:995-1016 | After unlinking a lockfile as stale every continuation keeps at most one instance inside append if and only if nobody was inside at that moment |
| LogProtocol.TwoHolders | packages/event-store/src/jsonl-store.ts:842-848 | On any sound file with a lockfile left by a dead process, a run of two breakers that ends with two instances inside append, against the comment that a racing break is safe |
| LogForks.RemovalKeepsLogExactly | packages/event-store/src/jsonl-store.ts:828-833 | After unlinking a lockfile as stale the log stays unforked in every continuation if and only if nobody was inside append at that moment |
| LogForks.Forks | packages/event-store/src/jsonl-store.ts:828-833 | With the lockfile gone while an instance is inside append, from any state with a good log: two more processes pass the size check, both appends of the same position return, the readable log is forked and no store can open the file again |
| LogForks.RaceForks | packages/event-store/src/jsonl-store.ts:828-833 | So the race of two breakers on any sound file with a lockfile left by a dead process has a continuation that ends in a forked log that cannot be opened |
| LogProtocol.EmptyLockStays | packages/event-store/src/jsonl-store.ts:866-873 | A lockfile without a pid, left by a crash or by a pid write that failed, stays for good: no instance enters append or changes the file any more |
| LogProtocol.TornAppendSurvives | packages/event-store/src/jsonl-store.ts:450-453 | For every k up to the number of events there is a run, ending in a crash, that leaves exactly the first k records of an append in the log |
| EventLog.TornBatch | packages/event-store/src/jsonl-store.ts:450-453 | After any prefix of a batch's text exactly the records that landed whole are readable; a torn record reads as nothing |
| EventLog.AtomicExactly | packages/event-store/src/jsonl-store.ts:450-453 | Wherever a write stops, all of a batch or nothing is readable, if and only if the batch is at most one record |
| EventLog.NewlineKeepsEvents | packages/event-store/src/jsonl-store.ts:428-448 | A lone newline after a torn tail adds and hides no event |
| EventLog.ChainIsBatch | packages/event-store/src/jsonl-store.ts:392-426 | The append loop's local cursors (version, position, hash) build the same records as continuing the log itself |
| EventLog.ChainCarries | packages/event-store/src/jsonl-store.ts:397-426 | The n records of an append are hashed and carry the n events in order |
| EventLog.BatchIsGood | packages/event-store/src/jsonl-store.ts:392-426 | Appending to an unforked, gap-free log gives an unforked, gap-free log |
| EventLog.LoadGood | packages/event-store/src/jsonl-store.ts:675-811 | Loading a good file keeps every record and continues at position n + 1 from the last hash |
| EventLog.LoadExactly | packages/event-store/src/jsonl-store.ts:675-811 | What loading remembers of any file, good or not: the records with lone hash fields dropped, the smallest next position above all of theirs, the last hash that occurs, the size, and whether the last line is torn |
| EventLog.GoodLogVerified | packages/event-store/src/hash-chain.ts:84-185 | A good log is one that the chain verifier accepts |
| EventLog.EventsAppended | packages/event-store/src/jsonl-store.ts:1093-1103 | A batch written whole at a line start adds exactly its records |
| RecordCodec.CodecIsLawful | packages/event-store/src/jsonl-store.ts:721-768 | A concrete escaped record encoding meets all demands placed on serialization: one line per record, reads back, no torn prefix reads as a record |
| RecordCodec.LawfulSchemeExists | packages/event-store/src/hash-chain.ts:30-58 | The demands placed on canonicalization can be met |
| EventStores.JsonlEventStore.Open | packages/event-store/src/jsonl-store.ts:245-320 | The size guard, the load and the fail-closed verification: which of them refuses, and that an opened store holds exactly what loading the file gives |
| EventStores.JsonlEventStore.Load | packages/event-store/src/jsonl-store.ts:675-811 | One pass over the lines builds the stream index, the global log, the next position, the last hash, the known size and the torn-tail flag that the file determines |
| EventStores.JsonlEventStore.BuildBatch | packages/event-store/src/jsonl-store.ts:392-426 | The record loop gives the chained records and their text without touching the instance |
| EventStores.JsonlEventStore.Append | packages/event-store/src/jsonl-store.ts:324-492 | The answer, the whole new cursor and the file after an append, including refusals, a failing newline repair and a batch write that fails after any number of bytes; every stream list stays the log filtered by stream |
| EventStores.JsonlEventStore.WriteAndSync | packages/event-store/src/jsonl-store.ts:1093-1103 | The file gains the data, or the prefix that reached it before the write threw |
| EventStores.JsonlEventStore.Read | packages/event-store/src/jsonl-store.ts:496-529 | Reads of one stream, with the unknown-stream and invalid-version cases |
| EventStores.InMemoryEventStore.Append | packages/event-store/src/in-memory-store.ts:88-190 | The reference store: its answer and log after an append, and its indexes kept in step |
| EventStores.InMemoryEventStore.Read | packages/event-store/src/in-memory-store.ts:194-229 | Reads of one stream as a function of the global log alone |
| StoreRuns.FileStoreRefinesMemoryStore | packages/event-store/src/jsonl-store.ts:324-553 | Over every sequence of appends the file store gives the in-memory store's answers and log, and reopening at the end rebuilds the live log, next position, last hash and known size |
| StoreRuns.AppendRefinesMemory | packages/event-store/src/in-memory-store.ts:88-190 | One append to a freshly loaded store is never refused as stale and agrees with the in-memory store |
| AppendVersions.AppendAnswers | packages/event-store/src/in-memory-store.ts:88-190 | Any append on a good log, in terms of the stream alone: refused as a conflict exactly if the stream is not empty, or not of the length, that the caller expects; when answered, the records it adds carry the caller's events at the versions that follow the stream, which are those the answer names, and no other stream changes |
| AppendVersions.EveryAppendAnswers | packages/event-store/src/jsonl-store.ts:324-492 | The same for every append of every run of the file store, the live log being what reopening shows |
| AppendVersions.OneWinner | packages/event-store/src/in-memory-store.ts:106-135 | Of all appends of a run that expect one version of one stream at most one succeeds |
| AppendVersions.OneWinnerOnFile | packages/event-store/src/jsonl-store.ts:343-364 | The same for the file store |
| StoreRuns.FailedAppendLandsPrefix | packages/event-store/src/jsonl-store.ts:434-465 | A failed append moves nothing in memory and leaves a prefix of its text: some first records, perhaps none |
| StoreRuns.FailedAppendSealsOrStaysCurrent | packages/event-store/src/jsonl-store.ts:1051-1085 | After a failed write the file is larger than the instance knows, or its cursor still fits the file |
| StoreRuns.SealedRefuses | packages/event-store/src/jsonl-store.ts:1051-1085 | In the first case every further append, with whatever faults, is refused and changes neither file nor cursor |
| StoreRuns.LockedRefuses | packages/event-store/src/jsonl-store.ts:853-950 | While another holds the lock every append is refused and changes nothing, an otherwise acceptable one by a timeout |
| StoreRuns.CurrentAppends | packages/event-store/src/jsonl-store.ts:324-492 | In the second a fault-free append answers as the in-memory store does, and a successful one leaves the cursor that reloading gives |
| StoreRuns.FaultyRunIsMemoryRun | packages/event-store/src/jsonl-store.ts:324-492 | Over every sequence of appends with whatever write failures the live log is what the in-memory store holds after just the appends that returned, it heads the good log that the file shows, and is all of it unless the instance is sealed |
| StoreRuns.StreamReadIsExact | packages/event-store/src/in-memory-store.ts:194-229 | On a good log a forward read of a stream is exactly the tail from the requested version, a backward read the reversed head, cut to the requested count |
| StoreRuns.ReadAllIsExact | packages/event-store/src/in-memory-store.ts:231-253 | The same for the global log and any position, below 1 too |
| StoreRuns.StreamReadAt | packages/event-store/src/in-memory-store.ts:194-229 | Reading a stream record by record: how many records and which, upward or downward from the requested version, and exactly when it is refused |
| StoreRuns.ReadAllAt | packages/event-store/src/in-memory-store.ts:231-253 | The same for the global log |
| StoreRuns.StreamVersions | packages/event-store/src/jsonl-store.ts:496-553 | In a good log the versions of each stream are 1, 2, 3, ... |
| HashChain.VerifyHashChain | packages/event-store/src/hash-chain.ts:84-185 | The one-pass verifier reports exactly the faults of the log, its validity and the last hashed position |
| HashChain.CheckEvent | packages/event-store/src/hash-chain.ts:105-178 | The faults of one event after the events before it, each kind in its case |
| ChainFaults.ReportCounts | packages/event-store/src/hash-chain.ts:84-185 | For every position and kind of fault: the report names it as often as there are events at the position that have it, where a fault is a gap to the neighbour, missing hashes after a hashed event, a first hashed event not anchored at genesis, a link other than the last hash before it, or a hash other than the recomputed one |
| ChainFaults.LastPositionIs | packages/event-store/src/hash-chain.ts:84-185 | The last verified position is that of the last hashed event |
| HashChain.AcceptsExactly | packages/event-store/src/hash-chain.ts:84-185 | Accepted logs are exactly those with contiguous positions, an optional unhashed lead and then an unbroken chain from genesis |
| HashChain.OneHeadOneLogOrCollision | packages/event-store/src/hash-chain.ts:30-58 | Two fully hashed accepted logs ending in one hash are the same log, or walking back from the heads gives two different inputs with one hash |
| HashChain.SubsequenceAcceptedExactlyPrefix | packages/event-store/src/hash-chain.ts:84-185 | A subsequence of a fully hashed accepted log is accepted if and only if it is a prefix |
| HashChain.Links | packages/event-store/src/hash-chain.ts:51-58 | Every event of a fully hashed accepted log links to its neighbour and carries its own hash |
| MerkleTrees.Build | packages/proof/src/merkle-tree.ts:155-178 | The built tree has the Merkle Tree Hash of section 2.1 of RFC 6962 as its root (none for no leaves); a malformed leaf is refused |
| MerkleTrees.BuildTree | packages/proof/src/merkle-tree.ts:94-134 | The bottom-up pairing loop with promotion of an odd node computes that root and keeps the leaves in order below it |
| MerkleTrees.GetProof | packages/proof/src/merkle-tree.ts:200-267 | The proof is the audit path of section 2.1.1 of RFC 6962, or none for an index out of range |
| MerkleTrees.VerifyProof | packages/proof/src/merkle-tree.ts:279-302 | The verification loop accepts exactly when folding the siblings gives the root, and throws exactly on malformed hex |
| Merkle.NextLevelRoot | packages/proof/src/merkle-tree.ts:94-134 | One round of pairing with promotion keeps the recursive root |
| Merkle.SplitPointIsPower | packages/proof/src/merkle-tree.ts:94-134 | The split point of the recursive root is a power of two (k < n <= 2k is its own contract), as section 2.1 of RFC 6962 has it |
| Merkle.MthExactly | packages/proof/src/merkle-tree.ts:67-88 | The root spelled out as in section 2.1 of RFC 6962: zero byte before a leaf, one byte before the left and the right root, cut at the largest power of two below the length |
| Merkle.NextLevelPath | packages/proof/src/merkle-tree.ts:200-267 | One round of pairing peels off the lowest step of each audit path |
| Merkle.AuditPathVerifies | packages/proof/src/merkle-tree.ts:200-302 | Every audit path folds its leaf up to the root |
| Merkle.AuditPathLength | packages/proof/src/merkle-tree.ts:200-267 | No proof has more than ceil(log2 n) steps, and the first leaf's has exactly that many |
| Merkle.CeilLog2IsExact | packages/proof/src/merkle-tree.ts:200-267 | That bound is the least e with n <= 2^e |
| Merkle.InclusionSoundOrCollision | packages/proof/src/merkle-tree.ts:279-302 | An accepted proof under the root of a leaf list names the leaf at the position its directions spell out, with exactly that leaf's siblings, or two computed different tagged inputs have one hash |
| Merkle.SameRootSameLeavesOrCollision | packages/proof/src/merkle-tree.ts:94-134 | Equal roots come from equal leaf lists, or from a computed collision |
| Merkle.DuplicatedTailChangesRoot | packages/proof/src/merkle-tree.ts:94-134 | Repeating the last leaf never keeps the root, short of a collision |
| Merkle.TaggedInputs | packages/proof/src/merkle-tree.ts:67-88 | Leaf and node inputs never coincide, and each determines its parts |
| Attestations.VerifyDetailed | packages/proof/src/attestation-proof.ts:303-408 | All five checks are evaluated; the result is their conjunction |
| Attestations.PackageAttestation | packages/proof/src/attestation-proof.ts:126-217 | A package is made exactly when the attestation hash is found at the index, and it then passes verification |
| Attestations.VerifiedAttestationIsLeaf | packages/proof/src/attestation-proof.ts:303-408 | A verified package under the root of a leaf list proves that its attestation's hash is a leaf, or gives a collision |
| Attestations.OneAttestationPerPosition | packages/proof/src/attestation-proof.ts:303-408 | Two verified packages under one root at one position carry the same canonical attestation, or give a collision |
| Attestations.VerifiedDetermined | packages/proof/src/attestation-proof.ts:303-408 | Verified packages that share attestation, proof and time are equal: changing any other field of one is detected |
| MoneyMath.ParseFormat | packages/ledger/src/money-math.ts:26-80 | parseAmount undoes formatAmount for every integer and every scale |
| MoneyMath.OneCanonicalSpelling | packages/ledger/src/money-math.ts:26-80 | All accepted spellings of a value format to one canonical text, which alone among canonical texts has that value |
| MoneyMath.FormatCanonical | packages/ledger/src/money-math.ts:67-80 | formatAmount only writes canonical texts |
| MoneyMath.CanonicalIsFormat | packages/ledger/src/money-math.ts:26-80 | A canonical text is what formatting its value gives |
| MoneyMath.ParseRescale | packages/ledger/src/money-math.ts:26-65 | One spelling read at two scales denotes one rational number |
| MoneyMath.ParseExactly | packages/ledger/src/money-math.ts:26-65 | A text is accepted at a scale exactly if, trimmed, it is an optional minus sign, digits and perhaps a point and digits, no more than the scale; and its value |
| MoneyMath.TrimExactly | packages/ledger/src/money-math.ts:26-40 | Trimming takes off exactly the space characters at both ends |
| MoneyMath.MoneyArithmeticExact | packages/ledger/src/money-math.ts:127-147 | Addition and subtraction through strings are exact, undo each other, and answer only for one currency at one scale |
| MoneyMath.CompareOrders | packages/ledger/src/money-math.ts:186-193 | Comparison is antisymmetric and transitive, is zero exactly for equal canonical texts and for a zero difference, and does not change when one amount is added to both sides |
| MoneyMath.CompareAcrossScales | packages/ledger/src/money-math.ts:186-193 | The same two texts compare alike at every scale that admits them |
| Ledgers.Ledger.Append | packages/ledger/src/ledger.ts:142-232 | Entries, ids and the transaction are committed only when all seven rules pass, otherwise nothing changes; the first failing rule decides the error |
| Ledgers.Ledger.Validate | packages/ledger/src/ledger.ts:142-204 | The validation loops find exactly the first violated rule |
| Ledgers.Ledger.RegisterAccount | packages/ledger/src/ledger.ts:100-103 | A new account is added at the end; a known id is refused |
| Ledgers.AssertBalanced | packages/ledger/src/ledger.ts:237-266 | Debits equal credits in scaled units in every currency of the batch |
| Ledgers.FromSnapshot | packages/ledger/src/ledger.ts:401-432 | Replaying accounts and entries grouped by correlation id gives the state that restoring defines |
| Ledgers.Ledger.GetTrialBalance | packages/ledger/src/ledger.ts:287-308 | The report, or UNBALANCED_TRANSACTION exactly when some currency's re-parsed columns differ |
| Ledgers.BuildAccumulators | packages/ledger/src/balance-calculator.ts:45-75 | One accumulator per joined key, in order of first appearance, with the exact sums of its entries |
| Ledgers.ComputeTrialBalance | packages/ledger/src/balance-calculator.ts:123-205 | The lines, the balanced flag, and exactly when it throws |
| Ledgers.AssertTrialBalanced | packages/ledger/src/balance-calculator.ts:218-241 | INVALID_AMOUNT exactly when some column text does not parse; otherwise passes exactly when the columns, read back, agree per currency |
| LedgerModel.AppendAcceptsExactly | packages/ledger/src/ledger.ts:142-204 | The exact condition under which append accepts a batch |
| LedgerModel.RefusalExactly | packages/ledger/src/ledger.ts:142-204 | Which error a refused batch reports: each rule only when all before it hold, of invalid money the first entry's |
| LedgerScales.AcceptedBalancesExactly | packages/ledger/src/ledger.ts:237-266 | In any reachable ledger every accepted batch over given currencies and scales balances as exact rational amounts if and only if each currency is used at one scale |
| LedgerScales.MixedScalesAccepted | packages/ledger/src/ledger.ts:237-266 | For any currency at two scales, an accepted batch whose debits and credits are different amounts of money |
| LedgerScales.ExactTotalIsSum | packages/ledger/src/ledger.ts:237-266 | At one scale the exact total of a side is its total in smallest units |
| LedgerModel.RunWellFormed | packages/ledger/src/ledger.ts:100-266 | In every run accounts and entry ids are distinct, every entry is sound, and each correlation id balances in each currency |
| LedgerModel.RestoreRoundTrip | packages/ledger/src/ledger.ts:378-432 | For every reachable ledger fromSnapshot(snapshot()) succeeds, keeps accounts, the multiset of entries and every scaled total; a second round trip also keeps entry order |
| LedgerRestores.RestoresExactly | packages/ledger/src/ledger.ts:401-432 | Whatever a snapshot was read from, it is restored exactly if its version is 1 and its accounts and entries are what every reachable ledger keeps: distinct ids, sound entries, every correlation id balanced in every currency |
| TrialBalance.TrialBalanceNeverThrowsExactly | packages/ledger/src/ledger.ts:287-308 | Ledgers over a set of currencies never fail their trial balance if and only if no currency of the set, prefixed by the separator, ends in another so prefixed |
| TrialBalance.NoColonIsUnconfusable | packages/ledger/src/balance-calculator.ts:27-29 | Currency codes without a colon meet that condition |
| TrialBalance.ConfusedCurrenciesFail | packages/ledger/src/balance-calculator.ts:27-29 | For confusable currencies a run whose trial balance throws |
| TrialBalance.LineKeepsNet | packages/ledger/src/balance-calculator.ts:138-175 | Splitting a net position into columns and formatting them keeps it |
| AccountBalances.ComputeAccountBalance | packages/ledger/src/balance-calculator.ts:80-113 | Every currency of the account once, with its exact debits, credits and net by normal side; throws exactly for an unknown account or an unparseable amount |
| AccountingEquation.BooksBalance | packages/ledger/src/balance-calculator.ts:80-113 | The accounting equation: in every reachable ledger and currency the balances reported of asset and expense accounts add up to those of liability, income and equity accounts |
| AccountingEquation.NormalSides | packages/ledger/src/balance-calculator.ts:80-113 | In every reachable ledger an account only debited reports a positive balance exactly if it is an asset or expense account, one only credited exactly if it is a liability, income or equity account, and else a negative one |
| AccountingEquation.ReportedTotals | packages/ledger/src/balance-calculator.ts:80-113 | The totals a report states read back to the sums of the account's debits and credits |
| AccountBalances.KeysAreCurrencies | packages/ledger/src/balance-calculator.ts:27-29 | Within one account joined keys and groups are those of the currencies, whatever characters they contain |
| Reconciliation.AllReconciledMeansBooksAgree | packages/reconciler/src/reconciler.ts:251-286 | With unique entry ids allReconciled is true exactly when executed intents have entries, amounts with entries equal the exact rational sum of debits all in their currency, every named intent exists, every cited transaction has events whose first one in the currency has the exact amount, and every event is cited on both sides |
| Reconciliation.AllReconciledExactly | packages/reconciler/src/reconciler.ts:251-286 | Without any assumption on ids: the same with an entry also counting as matched through another entry of its id |
| Reconciliation.PlainMeaningExactly | packages/reconciler/src/reconciler.ts:251-286 | For given ids of the scoped entries allReconciled has that meaning for every input, if and only if no id is repeated |
| Reconciliation.SharedEntryIdHidesOrphan | packages/reconciler/src/intent-ledger-matcher.ts:222-243 | For any entry ids of which two are equal, an input with these ids where allReconciled is true although a named intent does not exist |
| ReconcilerScope.ScopeKeepsWellExactly | packages/reconciler/src/reconciler.ts:206-245 | Every book that reconciles without a scope reconciles within a given scope too, if and only if the scope restricts nothing or its period ends before it starts |
| ReconcilerScope.ScopeKeepsExactly | packages/reconciler/src/reconciler.ts:206-245 | Which intents, entries and events a scope keeps, by field, in their order and number |
| ReconcilerScope.ScopeBreaks | packages/reconciler/src/reconciler.ts:206-245 | For any other scope, a reconciled book whose intent the scope leaves out while it keeps the entry that names it |
| Reconciliation.AmountsParseMakesReport | packages/reconciler/src/reconciler.ts:102-160 | If every scoped amount parses, reconciliation never throws, whatever the chain events hold, their decimals being integers |
| Reconciliation.CountsPartition | packages/reconciler/src/reconciler.ts:251-286 | Every match is counted in exactly one of the three counts |
| ChainStatuses.SummaryCounts | packages/reconciler/src/reconciler.ts:251-286 | The counts of a report, from the records: mismatches are exactly the intents, entries and citing intents whose amounts differ, missing ones the due intents without entry, the ids that only orphans name, the citations of unknown transactions and the events and transactions nobody cites, and matched ones all that agree |
| ChainStatuses.ReportThrowsExactly | packages/reconciler/src/reconciler.ts:102-160 | Exactly which amount that does not parse makes reconciling throw |
| Reconciliation.Reconciler.Reconcile | packages/reconciler/src/reconciler.ts:102-176 | The report over the scoped inputs; a number is used up only when a report is made |
| IntentLedgerMatcher.MatchAll | packages/reconciler/src/intent-ledger-matcher.ts:33-246 | The index map, id set and running sums find exactly what the reference by filters and exact sums says |
| IntentLedgerMatcher.MatchIntent | packages/reconciler/src/intent-ledger-matcher.ts:51-220 | What is reported on one intent |
| IntentLedgerMatcher.CompareDebits | packages/reconciler/src/intent-ledger-matcher.ts:119-215 | Bringing everything to the largest decimal base decides exactly as the rational sum does |
| MatchStatuses.IntentLedgerStatuses | packages/reconciler/src/intent-ledger-matcher.ts:33-246 | How often each intent id is reported with each status: missing in the ledger for each executed or verified intent that no entry names, a mismatch for each whose debits do not all agree in currency and exact sum, matched for each that agree, and missing once for each id that only orphans name |
| MatchStatuses.IntentVerdict | packages/reconciler/src/intent-ledger-matcher.ts:51-220 | The one match reported on an intent, read off the intent and the entries that name it |
| MatchStatuses.IntentCodes | packages/reconciler/src/intent-ledger-matcher.ts:119-215 | The discrepancy codes: one for each debit in another currency, one if the others do not add up, else one if some is scaled otherwise |
| MatchStatuses.OrphansAreUnknown | packages/reconciler/src/intent-ledger-matcher.ts:222-243 | With unique entry ids these are exactly the ids that entries name and no intent has |
| IntentLedgerMatcher.SumAt | packages/reconciler/src/intent-ledger-matcher.ts:164-168 | The normalized total is the exact sum in units of the common base |
| IntentLedgerMatcher.CleanExactly | packages/reconciler/src/intent-ledger-matcher.ts:33-246 | Exactly when this matcher finds nothing wrong |
| ChainMatchers.MatchLedger | packages/reconciler/src/ledger-chain-matcher.ts:33-203 | The ledger-chain matcher finds exactly what the reference says |
| ChainMatchers.MatchIntents | packages/reconciler/src/intent-chain-matcher.ts:33-219 | The intent-chain matcher finds exactly what the reference says |
| ChainMatchers.CompareWithChain | packages/reconciler/src/ledger-chain-matcher.ts:73-180 | Comparison with the first event in the currency is exact equality of rationals; a malformed chain amount is a mismatch, not an exception |
| ChainStatuses.LedgerChainStatuses | packages/reconciler/src/ledger-chain-matcher.ts:33-203 | How often each transaction is reported with each status: missing on chain for each entry that cites a hash without events, a mismatch for each whose amount the first event in its currency does not equal exactly, matched for each other, and missing in the ledger for each event that no entry cites |
| ChainStatuses.IntentChainStatuses | packages/reconciler/src/intent-chain-matcher.ts:33-219 | The same for intents, and a missing intent once for each transaction that no intent cites |
| ChainStatuses.ClaimVerdict | packages/reconciler/src/ledger-chain-matcher.ts:73-180 | The match and codes reported on one citation, read off the events |
| ChainMatchers.LedgerCleanExactly | packages/reconciler/src/ledger-chain-matcher.ts:33-203 | Exactly when the ledger-chain matcher finds nothing wrong |
| ChainMatchers.IntentCleanExactly | packages/reconciler/src/intent-chain-matcher.ts:33-219 | Exactly when the intent-chain matcher finds nothing wrong |
| Matching.CompareNormalized | packages/reconciler/src/ledger-chain-matcher.ts:148-153 | Comparing at a common decimal base compares exact rational amounts |
| CrossChain.PreventDoubleCounting | packages/reconciler/src/cross-chain-rules.ts:191-260 | The bucketed pass keeps and removes, group by group in order of first appearance, exactly the events its rule says |
| CrossChain.SplitsExactly | packages/reconciler/src/cross-chain-rules.ts:191-260 | Every event, as often as it occurs, is either kept or removed |
| CrossChain.RemovedIffSettledElsewhere | packages/reconciler/src/cross-chain-rules.ts:191-260 | For acyclic settlement and separator-free events an event is removed if and only if an event of the same amount, symbol and unordered address pair sits on a chain that settles on its chain |
| CrossChain.EveryGroupKeepsOne | packages/reconciler/src/cross-chain-rules.ts:218-257 | For acyclic settlement every group keeps an event |
| CrossChain.AcyclicExactly | packages/reconciler/src/cross-chain-rules.ts:191-260 | No transfer disappears, whatever the events, if and only if the settlement map has no cycle |
| CrossChain.Idempotent | packages/reconciler/src/cross-chain-rules.ts:191-260 | Running the pass on what it kept keeps everything in the same order |
| CrossChain.KeyIsExact | packages/reconciler/src/cross-chain-rules.ts:204-212 | For separator-free fields the grouping key says exactly: same amount, symbol and unordered address pair |
| RegistrarSnapshots.RestoredBehavesAlike | packages/registrum/src/structural-registrar.ts:404-469 | A registrar restored from a snapshot gives, for every later sequence of transitions and whatever the engines are, the same answers and order indices, and equal snapshots |
| RegistrarAcceptance.AcceptedExactly | packages/registrum/src/persistence/rehydrator.ts:234-352 | Whatever a snapshot was read from, it is accepted exactly if its version is known, it carries the configuration's mode and fingerprint, and it records the states, parents, indices and highest index of some rooted history; and which error is reported otherwise |
| RegistrarLineage.RestoredLineageIsPrefix | packages/registrum/src/structural-registrar.ts:440-469 | After every later run the restored registrar's lineage of each id is a prefix of the original's |
| RegistrarLineage.SameLineageExactly | packages/registrum/src/structural-registrar.ts:440-469 | The two give the same lineages for every id after every later run if and only if no frontier version had a parent when the snapshot was taken |
| RegistrarSnapshots.RestorableExactly | packages/registrum/src/persistence/snapshot.ts:326-400 | For every configuration and every valid history: its snapshot can be restored in the same configuration if and only if there is a fingerprint and every chain of cross-id parents ends at a registered root; otherwise it is refused as invalid |
| RegistrarSnapshots.RootedExactly | packages/registrum/src/persistence/snapshot.ts:326-400 | The walk from every id reaches a root exactly when the ids can be ranked with each parent before its child |
| RegistrarSnapshots.RestoreNeverFails | packages/registrum/src/persistence/rehydrator.ts:234-352 | Under the initial invariants, alone or as a dual witness, a snapshot can always be restored in the same configuration |
| RegistrarSnapshots.CyclicAncestryIsRefused | packages/registrum/src/persistence/snapshot.ts:326-400 | With other invariants a state may descend from its own descendant; its snapshot is then refused |
| RegistrarSnapshots.UnregisteredParentIsRefused | packages/registrum/src/persistence/snapshot.ts:326-400 | Or name a parent that was never registered; its snapshot is refused too |
| RegistrarSnapshots.RestoredIsSimilar | packages/registrum/src/structural-registrar.ts:440-469 | The restored frontier has the same ids, indices and cross-id parents |
| RegistrarSnapshots.RegisterKeepsSimilar | packages/registrum/src/structural-registrar.ts:581-804 | Histories that agree on frontier, counter and parents answer alike and stay so |
| RegistrarSnapshots.SortedKeysUnique | packages/registrum/src/structural-registrar.ts:1278-1280 | Sorting by index determines the order of ids |
| RegistrarRuns.IndicesAreExact | packages/registrum/src/structural-registrar.ts:759-804 | From an empty registrar the indices of the n accepted versions are 0..n-1, each used once |
| RegistrarRuns.RunKeepsValid | packages/registrum/src/structural-registrar.ts:759-804 | In every run indices are handed out consecutively to accepted transitions, the history stays valid, and the append-only guard never fires |
| RegistrarModel.KeyIsFresh | packages/registrum/src/structural-registrar.ts:173-175 | The next version key is never in use |
| RegistrarModel.InitialInvariantsAdmit | packages/registrum/src/invariants.ts:78-432 | The 11 invariants together accept exactly a new non-empty root id or a new version of a registered id, flagged accordingly |
| RegistrarVerdicts.RegisterNames | packages/registrum/src/structural-registrar.ts:483-638 | A legacy refusal names exactly the invariants that fail on the input of their scope, in order, each once, with its own failure mode; an acceptance lists all invariants |
| RegistrarVerdicts.VerdictNames | packages/registrum/src/structural-registrar.ts:581-638 | The same of the verdict alone, in any mode |
| RegistrarVerdicts.KindExactly | packages/registrum/src/structural-registrar.ts:581-638 | The kind is accepted exactly if none fails and halted exactly if one of the failing ones halts |
| RegistrarVerdicts.InitialViolations | packages/registrum/src/invariants.ts:78-432 | Which of the 11 invariants are reported for which defect of a transition, in order and with their failure modes |
| RegistrarVerdicts.HaltedExactly | packages/registrum/src/invariants.ts:78-432 | Under them a transition is halted exactly if it takes a registered id for a new root or names an unregistered parent |
| RegistrarVerdicts.DualRefusalAgrees | packages/registrum/src/structural-registrar.ts:534-550 | A dual refusal has the kind of the legacy verdict and its ids, as often |
| RegistrarRuns.LineageHasEveryVersion | packages/registrum/src/structural-registrar.ts:1190-1217 | Under the initial invariants a lineage has exactly one entry per accepted version of the id |
| RegistrarLineage.LineageWalk | packages/registrum/src/structural-registrar.ts:1190-1217 | A lineage starts with the frontier version, each further entry is the version its predecessor links to, and it ends at one without a parent |
| RegistrarRuns.RunKeepsChains | packages/registrum/src/structural-registrar.ts:763-797 | Each version descends from the previous version of its id |
| RegistrarRuns.DualHistoryIsLegacyHistory | packages/registrum/src/structural-registrar.ts:534-550 | Over every dual run the history is the one the legacy witness alone builds from the accepted transitions |
| RegistrarRuns.ParityHaltsExactly | packages/registrum/src/structural-registrar.ts:534-550 | In every dual run a transition is halted on parity exactly when the engines diverge on it in the state the transitions before it left, and then that state stays |
| StructuralRegistrars.StructuralRegistrar.Register | packages/registrum/src/structural-registrar.ts:483-573 | The answer, the whole new history and the parity status of one registration |
| StructuralRegistrars.StructuralRegistrar.EvaluateLegacy | packages/registrum/src/structural-registrar.ts:581-638 | The loop over invariants collects exactly the violations, each on the input of its scope |
| StructuralRegistrars.StructuralRegistrar.AcceptTransition | packages/registrum/src/structural-registrar.ts:759-804 | The new version, its key and parent, the frontier and the counter, also when the guard fires |
| StructuralRegistrars.StructuralRegistrar.GetLineage | packages/registrum/src/structural-registrar.ts:1190-1217 | The walk ends, its cycle guard is never taken, and it yields the ids along the parent links |
| StructuralRegistrars.StructuralRegistrar.ResolveSnapshotParentId | packages/registrum/src/structural-registrar.ts:1228-1259 | The first ancestor with another id |
| StructuralRegistrars.StructuralRegistrar.TakeSnapshot | packages/registrum/src/structural-registrar.ts:1273-1342 | The snapshot depicts the history: sorted ids, parents, indices and the highest index |
| StructuralRegistrars.StructuralRegistrar.FromSnapshot | packages/registrum/src/structural-registrar.ts:404-469 | Restores exactly what restoring defines, or fails with the first violated check |
| VaultModel.RunIsSound | packages/vault/src/intent-manager.ts:118-370 | In every run of the lifecycle with allocate and deallocate, each envelope has 0 <= spent <= allocated and spent equal to the sum of its executed and verified intents |
| VaultHistory.StatusIsEarned | packages/vault/src/intent-manager.ts:60-370 | In every run an intent's status was earned by operations that went through in order: declared, approved, marked executing, recorded as executed, verified; failed after being marked executing; rejected after being declared |
| VaultHistory.MovesExactly | packages/vault/src/intent-manager.ts:60-68 | Each operation of the lifecycle goes through exactly from its own statuses, a rejection from declared and approved; the errors otherwise |
| VaultHistory.FinalStays | packages/vault/src/intent-manager.ts:60-68 | Rejected, verified and failed intents never change again in any run |
| VaultHistory.ExecutionExactly | packages/vault/src/intent-manager.ts:258-286 | An execution goes through exactly for an executing intent that is unlinked or whose positive amount, in the engine's currency and scale, the envelope can bear |
| VaultHistory.DeclareExactly | packages/vault/src/intent-manager.ts:118-173 | Exactly when an intent can be declared: a positive linked amount exactly if it could be spent right away |
| VaultHistory.SpendingExactly | packages/vault/src/budget.ts:210-309 | Exactly when spending and giving back go through, what they move, and that giving back undoes spending |
| VaultHistory.SpendingRefusals | packages/vault/src/budget.ts:210-309 | Why spending and giving back are refused |
| VaultHistory.AllotmentExactly | packages/vault/src/budget.ts:153-204 | Exactly when allocating and deallocating go through, and by how much they move the allotment |
| VaultHistory.AllotmentRefusals | packages/vault/src/budget.ts:153-204 | Why an allotment is refused |
| VaultModel.RecordFailureNeverRefused | packages/vault/src/intent-manager.ts:331-370 | In a sound vault recording a failure is accepted exactly for executing and executed intents; reverseSpend never refuses it |
| VaultModel.ApplyKeepsSound | packages/vault/src/budget.ts:153-309 | Every operation keeps the invariant |
| VaultModel.AllocationPositive | packages/vault/src/budget.ts:153-170 | An amount checked positive at its own scale is positive when its digits are read at the engine's |
| Vaults.BudgetEngine.Allocate | packages/vault/src/budget.ts:153-170 | On strings: the new envelope denotes the old allocation plus the amount read at the engine's scale, available stays allocated minus spent, and the error cases |
| Vaults.BudgetEngine.Deallocate | packages/vault/src/budget.ts:175-204 | The same for decreasing, refused below what is spent |
| Vaults.BudgetEngine.Spend | packages/vault/src/budget.ts:210-261 | Only an amount at the engine's scale within what is available is charged |
| Vaults.BudgetEngine.ReverseSpend | packages/vault/src/budget.ts:271-309 | Only what was spent can be given back |
| Vaults.BudgetEngine.RestoreEnvelope | packages/vault/src/budget.ts:330-381 | Admits exactly a new envelope with readable 0 <= spent <= allocated, and recomputes what is available |
| Vaults.IntentManager.Declare | packages/vault/src/intent-manager.ts:118-173 | A new declared intent, or the first failing check, against the envelope's available text |
| Vaults.IntentManager.RecordExecution | packages/vault/src/intent-manager.ts:258-286 | Charges the envelope and moves the intent together, or changes neither |
| Vaults.IntentManager.RecordFailure | packages/vault/src/intent-manager.ts:331-370 | Gives back what was charged and moves the intent; never refused in a sound vault |
| Vaults.IntentManager.Move | packages/vault/src/intent-manager.ts:180-253 | Approval, rejection, marking and verification follow the transition table |
| Distributions.PoolIsConserved | packages/treasury/src/distribution.ts:445-513 | Read back from their texts, payouts and remainder make up the pool exactly; for an admitted plan with a non-negative pool the remainder is not negative and, when shares hand out everything, smaller than one unit per recipient paid |
| DistributionEffects.PaidExactly | packages/treasury/src/distribution.ts:445-513 | A payee is among the payouts exactly if it is a recipient, with its milestone met in a milestone plan; with distinct payees once |
| DistributionEffects.DuesExactly | packages/treasury/src/distribution.ts:423-513 | What a recipient is due: its basis points of the pool, its part by met shares, or its fixed amount, cut off toward zero |
| DistributionEffects.AdmittedExactly | packages/treasury/src/distribution.ts:96-227 | Exactly which plans are admitted |
| DistributionEffects.RefusalsExactly | packages/treasury/src/distribution.ts:96-227 | Which of the checks refuses a plan |
| DistributionEffects.ExecutionMovesPool | packages/treasury/src/distribution.ts:315-356 | Executing a plan debits its pool account with all that is distributed and credits each paid recipient's account with its due; no other total changes |
| Distributions.DistributionEngine.Resolve | packages/treasury/src/distribution.ts:423-513 | Each paid recipient's due, their total and the remainder, and exactly when resolving throws |
| Distributions.DistributionEngine.CreatePlan | packages/treasury/src/distribution.ts:96-227 | The first failing check decides; otherwise a draft plan is stored |
| Distributions.DistributionEngine.ApprovePlan | packages/treasury/src/distribution.ts:245-257 | Only drafts are approved |
| Distributions.DistributionEngine.Execute | packages/treasury/src/distribution.ts:271-387 | Writes all debits and credits of the non-zero payouts in one batch and marks the plan executed, or writes no entry and leaves the plan; and the exact condition for going through |
| DistributionModel.RemainderNonNegative | packages/treasury/src/distribution.ts:445-513 | An admitted plan with a non-negative pool never distributes more than the pool |
| DistributionModel.RemainderIsDust | packages/treasury/src/distribution.ts:445-513 | With shares totalling the divisor fewer smallest units stay behind than recipients are paid |
| Transfers.TransfersAccepted | packages/treasury/src/distribution.ts:315-356 | The ledger takes a batch of debit-credit pairs with distinct keys exactly when no entry id is taken |
| DistributionRuns.IdsAlwaysFreeExactly | packages/treasury/src/distribution.ts:271-387 | Executing plans with ids from a set one after another, on a ledger without distribution entries, never fails on a taken entry id, whatever the payees are called, if and only if no id of the set continues another after a colon (or the engine's currency is blank and it pays nothing) |
| DistributionRuns.SecondRefused | packages/treasury/src/distribution.ts:315-356 | For two plan ids of which one continues the other after a colon, two admitted plans of which the first makes the second impossible to execute |
| DistributionRuns.NoColonNoContinuation | packages/treasury/src/distribution.ts:315-356 | Plan ids without a colon meet that condition |
| Funding.ApprovedByBoth | packages/treasury/src/funding.ts:134-211 | In every run an approved or executed request carries both gatekeepers' approvals, both really made, and neither gatekeeper is its requester |
| Funding.RejectedByGatekeeper | packages/treasury/src/funding.ts:218-256 | In every run a rejected request was rejected by a gatekeeper, whose name it carries |
| Funding.DecisionsExactly | packages/treasury/src/funding.ts:134-329 | Exactly when approving, rejecting and executing go through in a run |
| Funding.RefusalsExactly | packages/treasury/src/funding.ts:134-329 | Why a decision is refused |
| Funding.TwoApprovalsApprove | packages/treasury/src/funding.ts:134-211 | The two gatekeepers' approvals, in either order, approve a pending request that neither raised |
| Funding.ExecutionMoves | packages/treasury/src/funding.ts:261-329 | Executing a request debits its own account and credits the treasury's main account with the amount; no other total changes |
| Funding.GatekeeperRequestNeverExecutes | packages/treasury/src/funding.ts:134-211 | A request raised by a gatekeeper is never approved or executed |
| Funding.OnlyForward | packages/treasury/src/funding.ts:218-329 | Rejected and executed requests never change again; no request changes requester or amount |
| Funding.FundingGateManager.Approve | packages/treasury/src/funding.ts:134-211 | The checks in order and the gate that is passed |
| Funding.FundingGateManager.Reject | packages/treasury/src/funding.ts:218-256 | Any gatekeeper may reject a request that is not final |
| Funding.FundingGateManager.Execute | packages/treasury/src/funding.ts:261-329 | Writes one balanced pair and marks the request executed, or writes nothing and leaves it; and the exact condition for going through |
| Funding.FundingGateManager.Create | packages/treasury/src/funding.ts:69-83 | Two distinct gatekeepers are required |

## Left out

- LogProtocol.EveryRunKeepsTheLog: an append's argument and expected-version checks happen before the lock and touch no file, so the steps start after them; a lock timeout is a run in which the instance takes no further step.
- EventStores.JsonlEventStore.Append: the lock is a flag that is either free or held for the whole call; waiting, retrying and stale-lock recovery are in the interleaving model instead.
- EventStores.JsonlEventStore.Load: which lines were skipped and why is not recorded.
- RecordCodec.CodecIsLawful: the encoding is not JSON; that JSON text meets the same demands is an assumption.
- RecordCodec.LawfulSchemeExists: the canonical text is not RFC 8785 JSON; that RFC 8785 text meets the same demands is an assumption.
- EventStores.InMemoryEventStore.Append: events are immutable values, so aliasing of payload objects between caller and store is not captured.
- RegistrarRuns.DualHistoryIsLegacyHistory: sorted lists of violated ids are compared as multisets.
- RegistrarSnapshots.RestoredBehavesAlike: one fingerprint stands for the registry hash, whose computation is not modelled; the registry engine is an arbitrary function of transition, registered ids and order index.
- StructuralRegistrars.StructuralRegistrar.Register: violation messages and details are not modelled, only ids and whether they halt.
- Vaults.BudgetEngine.RestoreEnvelope: does not say which of the refusals is reported.
- Vaults.IntentManager.Move: approval and verification records attached to an intent are not modelled, only its status.
- Distributions.DistributionEngine.Resolve: does not say which money error a plan that cannot be resolved reports; the three resolvers share one loop with the recipients, divisor and amount of the strategy.
- Distributions.DistributionEngine.Execute: does not say which error is reported; accounts registered before a refused append stay registered.
- IntentLedgerMatcher.MatchAll: of each match only subject, status and codes.
- IntentLedgerMatcher.MatchIntent: of each match only subject, status and codes, not the ledger amount, correlation id and texts.
- ChainMatchers.MatchLedger: of each match only subject, status and codes.
- ChainMatchers.MatchIntents: of each match only subject, status and codes.
- Reconciliation.AmountsParseMakesReport: a chain event's number of decimals is an integer; a fractional number makes BigInt throw.
- Reconciliation.Reconciler.Reconcile: of each match the subject, status and discrepancy codes are modelled, not the texts and formatted amounts.
- Object keys with special meaning in JavaScript, such as `__proto__`, in records keyed by id.
- Legacy unhashed lines appear only as an optional leading segment of a log.
- `matchMultiChain`: it maps events back by chain and transaction hash, so one transaction with a kept and a removed transfer lands on both sides.
- The registrar's `validate`, the registry expression language, witness governance and multi-signatures.
- The vault's and treasury's imports, exports and snapshots beyond restoring one envelope; calls to `spend` or the ledger that bypass the workflows.
- `linkCrossChainEvents`, payroll, the snapshot store, catalog migration, cross-chain invariants of the verify package.
- Subscriptions, telemetry, error texts, portfolio observation, HTTP, RPC, SDK and demo code.

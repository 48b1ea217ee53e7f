# Chain-Breaker: verified model

Chain-Breaker is a proof-of-work ledger whose blocks carry mutations of a governed curator
registry. This project models its ledger, registry, fork choice, storage and peer protocol in Dafny
and proves properties over all inputs, all runs and all interleavings. `dafny verify dfyconfig.toml`
checks everything.

## How it is built

| files | what they model |
|---|---|
| `Storage`, `AppendOrder`, `StorageRuns`, `DamagedStores`, `StorageLedger` | `append_block` as eighteen durable steps, a crash before any of them, `recover_store` with a crash before any of its own, all runs of these, what recovery makes of any disk, and those of a node that appends what its ledger admits |
| `JournalFile` (in `Journal.dfy`), `StorageJournal`, `Formats` | journal records as bytes and how they relate to the store's journal, block records and the HEAD line |
| `Envelope`, `Framing` | frames, and the in-place buffer that cuts a TCP stream back into them |
| `Governance`, `Registry`, `RegistryHistory`, `RegistryEffects`, `RegistryLookup`, `RegistryMemory`, `Serialization` | signatures, the reducer, its histories, what it does to the past and to keys, the historical lookup and what it still remembers, and the canonical bytes |
| `Blocks`, `MedianTime`, `Difficulty`, `Chain`, `Admission` | block checks, median-past time, targets, the `Ledger` object, and what it asks of a block condition by condition |
| `ForkChoice`, `SuffixVerdicts`, `ForkAgreement`, `LongestChain`, `Switching` | the reorg engine, which faults refuse a candidate and which escape, how its judgement relates to the ledger's, what it amounts to, and what its switches adopt |
| `RefusedChain`, `UncheckedSwitches` | chains of mined blocks: a heavier one the engine refuses, and switches its missing checks let through |
| `Sync`, `SyncProgress`, `SyncStore` | the sync engine, how far an honest peer gets with it, and when it keeps ledger and store in step |
| `Layouts` | the bytes of envelopes, frames, journal and block records, HEAD and registry states, offset by offset |
| `Merkle` | the tree, its proofs, and the Rust verifier's root |
| `Handshake`, `TwoParties`, `Manager` | the session object, two endpoints over first-in first-out channels, the connection manager |
| `Limits`, `Locator` | the rate limiter, the token bucket, the header locator |
| `Types`, `Bytes`, `Sorting`, `Wrappers` | shared values and stock facts |

Objects the source updates in place are classes; each of their methods is proved against a function
of the old state, and the main results are lemmas about those functions. Loops keep the source's form.

**Hashes.** Above the byte level SHA-256 is a free term: a `Hash` is its own preimage, so hashes do not
collide and none contains itself. At the byte level it is any function with 32-byte results, and where
a result needs it, only the finitely many values actually hashed are assumed not to collide.

**Parameters.** Ed25519 verification, the number read from a block hash, the transaction schema, the
user's transaction validator, the JSON reader, Python's lenient integer syntax, the clock and the
outcome of every send and receive are parameters. A failpoint is a number: the step before which the
call dies. Where a result needs blocks to be mined, it assumes that every header with a target in range
has a nonce whose hash meets it (`RefusedChain.WorkCanBeDone`).

## Where the code and its documentation differ

The code is followed throughout.

- `retarget` (`chainbreaker/chain.py:474-524`) says the window is compared with the block before it, but
  measures from the first block of the window: nine intervals against an expected ten
  (`Difficulty.PerfectTimingTightens`).
- `docs/CONSENSUS_INVARIANTS.md:141-145` measures work as floor(MAX_TARGET / target) and breaks ties by the
  smaller tip hash. `reorg.py` uses 2^256 // (target + 1), which orders accepted suffixes alike
  (`LongestChain.MeasuresAgree`), but keeps the current chain on a tie.
- Fork choice by work is in effect longest chain: `_expected_target_at` demands of a candidate the current
  chain's own targets, so among the suffixes accepted more work is more blocks
  (`LongestChain.LongestAcceptedWins`), and a ledger chain whose retargets came out differently is refused
  however heavy (`LongestChain.LedgerChainVerdict`, `RefusedChain.HeavierLedgerChainIsRefused`).
- `validate_candidate_suffix` leaves the first link to its caller, and `evaluate_candidate` does not check
  it; it also omits the target range, the timestamp rules, the schema and the validator
  (`ForkAgreement.SuffixAgrees`). So an adopted chain need not be one the ledger accepts: one mined block that
  names any wrong predecessor is adopted (`UncheckedSwitches.UnlinkedBlockIsAdopted`), and after a switch on a
  ledger chain the ledger accepts the result exactly when the first link holds and those other checks pass
  (`Switching.AdoptedIsValidExactlyWhen`). And an abandoned tip can come back
  (`UncheckedSwitches.AbandonedTipReturns`); it cannot while the forks are linked (`Switching.NoTipIsReadopted`).
  Work grows with every switch all the same (`Switching.WorkGrowsWithEverySwitch`).
- `handle_headers` weighs the new headers alone against the whole local chain, where
  `docs/HEADER_SYNC_DESIGN.md:87-98` compares chains, and `parse_headers_message` asks the local ledger for
  targets at heights it does not have. So blocks are asked for only by a chain of at most four blocks
  (`SyncProgress.RequestsBlocksExactlyWhen`). `handle_block` adds the pending blocks to a height that already
  counts them, and raises an IndexError past height 9: only a chain of at most three blocks ever takes anything
  over (`SyncProgress.SyncCommitsExactlyWhen`).
- `docs/CHAIN_SYNC_SECURITY_REVIEW.md:33-42` has the sync engine commit through ledger and store, but the ledger
  takes blocks one by one and the store gets them at the end. A reset with blocks pending, or a store that fails,
  loses them for the store (`SyncStore.CallKeepsStep`), which then takes blocks that no longer link
  (`SyncStore.ResetBreaksTheStore`).
- The reorg engine replays under the default network id, so on any other network it never switches to a
  valid chain (`ForkAgreement.OtherNetworksNeverSwitch`).
- `_apply_revoke` rebuilds the state from its records alone and so drops governance keys, threshold and
  network id (`RegistryHistory.RevocationDropsGovernanceFields`). Curator signatures always cover the default
  network id (`chainbreaker/registry_state.py:901`).
- `active_key_at` answers None on an exactly stated set of heights where another record of the curator is in
  force (`RegistryHistory.ActiveKeyAtIsExact`): after every rotation, until the new key comes into force
  (`RegistryEffects.RotationReachesTheExceptions`). Rotating or revoking can change who is in force at past heights
  (`RegistryEffects.PastIsKeptExactly`, `RegistryEffects.RotationUndoesRevocation`).
- `key_was_valid_at`, the historical lookup, vouches for a rotated key at all heights before its successor,
  also before it came into force, and remembers one generation. Measured against the state after the height in
  question it is right in every later state exactly when no claim was too early and no later transaction turns
  the answer (`RegistryLookup.RightThroughoutExactlyWhen`). After two or more rotations it vouches at every earlier
  height for exactly the two keys before the newest (`RegistryMemory.RotationsRemember`).
- `recover_store` does not clear the indexes when no block survives (`StorageRuns.RecoveredIndexesAreClean`),
  reports the genesis hash as the tip's hash (`StorageRuns.NothingIsRolledBack`), does not look at whether the
  first block links to genesis (`StorageRuns.RollsBackExactlyWhen`), and with a height limit below
  HEAD starts its walk at the wrong hash (`StorageRuns.LimitedRecoveryHead`).
- After a rollback `recover_store` writes the genesis hash into HEAD at the safe height, so the next recovery takes
  the block there for damaged: each restart loses one more block until none is left
  (`DamagedStores.EveryRestartLosesABlock`), and a second recovery leaves HEAD alone exactly when the first kept the
  tip HEAD named, or no block (`DamagedStores.RecoveryIsStableExactlyWhen`).
- A network id with a colon makes HEAD unreadable (`Formats.HeadRoundTrip`).
- The handshake table lets ESTABLISHED go to REJECTED, but `reject` raises there; the public `transition_to` can
  establish a session with no peer (`Handshake.SoundThroughoutExactlyWhen` says exactly when it does not).
  An accepting and an inbound side do not fit together (`TwoParties.MixedRolesDisagree`). NEW may not go to CLOSED, so
  `close` raises, and an inbound attempt that never got a HELLO keeps its entry
  (`Manager.EntriesStayUntilRemoved`). `docs/PEER_HANDSHAKE.md:84-105` gives HELLO_ACK other fields than the code,
  which sends `ok` and `reason`.
- An exception in `consume` loses the envelopes already collected in that call; `Framing.ChunkingIsIrrelevant`
  compares what had been collected up to the exception, and whole results for runs that do not raise.

## Model

| member | source | states |
|---|---|---|
| Storage.FlatFileStore.AppendBlock | chainbreaker/storage/backend.py:190-322 | Cut before any durable step, the disk is the one after exactly the steps taken; it returns only after all eighteen |
| Storage.FlatFileStore.StageHeader | chainbreaker/storage/backend.py:230-242 | BEGIN, then the header staged and journalled |
| Storage.FlatFileStore.StageBody | chainbreaker/storage/backend.py:244-260 | Block record, then registry state, each staged and journalled |
| Storage.FlatFileStore.PublishBlock | chainbreaker/storage/backend.py:267-277 | Header, then block, then at its interval or over an old one the snapshot, become the files of the new height |
| Storage.FlatFileStore.IndexBlock | chainbreaker/storage/backend.py:324-336 | One entry is added to each index, the two files being written one after the other |
| Storage.FlatFileStore.CommitBlock | chainbreaker/storage/backend.py:280-310 | INDEX_STAGED, COMMIT, then HEAD moves |
| Storage.FlatFileStore.CleanUp | chainbreaker/storage/backend.py:317-320 | Only the staged files go, after HEAD has moved |
| Storage.FlatFileStore.WalkBack | chainbreaker/storage/recovery.py:105-122 | The loop over heights computes the recursive backward walk |
| Storage.FlatFileStore.RecoverStore | chainbreaker/storage/recovery.py:69-181 | Finished, the disk is the fully recovered one and the report is the plan; cut short, only some of its effects are there |
| Storage.FlatFileStore.ApplyPlan | chainbreaker/storage/recovery.py:124-169 | Deletions, HEAD and the two index files, each done or not when the call is cut |
| Storage.FlatFileStore.PruneHeaders | chainbreaker/storage/recovery.py:124-127 | Nothing at or below the safe height is deleted; when it finishes, everything above is |
| Storage.FlatFileStore.PruneBlocks | chainbreaker/storage/recovery.py:128-130 | The same for block files |
| Storage.FlatFileStore.PruneSnapshots | chainbreaker/storage/recovery.py:131-135 | The same for registry snapshots |
| Storage.FlatFileStore.PruneFiles | chainbreaker/storage/recovery.py:124-135 | The three deletions in order, cut anywhere |
| Storage.FlatFileStore.RewriteIndexes | chainbreaker/storage/recovery.py:144-169 | Both indexes are rewritten together when a block is left, and left alone when none is |
| Storage.FlatFileStore.BuildIndexes | chainbreaker/storage/recovery.py:145-157 | The loop computes both indexes over the readable blocks up to a height |
| Storage.FlatFileStore.RebuildIndexes | chainbreaker/storage/backend.py:467-505 | Finished, the indexes are those of the blocks up to HEAD, or gone when there is none; cut short, each file is old or new |
| StorageRuns.AppendIsAtomic | chainbreaker/storage/backend.py:190-322 | Cut after any step, an append leaves the old blocks or, once HEAD moved, those and the new one, files and COMMIT included, whether or not the block links to the tip |
| StorageRuns.RollsBackExactlyWhen | chainbreaker/storage/recovery.py:105-122 | Recovery rolls nothing back if and only if every block but the first links to the one below |
| StorageRuns.NothingIsRolledBack | chainbreaker/storage/recovery.py:105-122 | On every disk that carries a linked chain the walk verifies all of it; the hash it ends with is that of genesis |
| StorageRuns.RecoveryKeepsChain | chainbreaker/storage/recovery.py:69-142 | Recovery, finished or cut short, keeps the chain; finished, nothing lies above HEAD |
| StorageRuns.RecoveryIsIdempotent | chainbreaker/storage/recovery.py:69-181 | Run again after it finished or was cut short anywhere, recovery ends with the same disk |
| StorageRuns.EveryDiskCarriesTheCommittedChain | chainbreaker/storage/backend.py:190-322 | Over every run of cut or finished appends of linking blocks, recoveries and rebuilds, every disk carries exactly the chain whose appends moved HEAD |
| StorageRuns.CommittedBlocksAreNeverLost | chainbreaker/storage/backend.py:405-419 | Reading up to HEAD always succeeds, gives a linked chain from genesis to HEAD's hash, and only ever a longer one |
| StorageRuns.EventsOnTheReadableChain | chainbreaker/storage/recovery.py:69-142 | Each event adds its own block if HEAD moved and changes the readable chain in no other way; recovery rolls back nothing and leaves nothing above HEAD |
| StorageRuns.SnapshotsAreCommitted | chainbreaker/storage/backend.py:364-379 | Along every run a snapshot at or below HEAD is the state committed with that block, and every hundredth height has one |
| StorageRuns.RecoveredIndexesAreClean | chainbreaker/storage/recovery.py:144-169 | Recovered indexes equal the crash-free ones if and only if a block survives or the indexes were empty before |
| StorageRuns.ReindexedIsClean | chainbreaker/storage/backend.py:467-505 | The backend's own rebuild always gives the crash-free indexes |
| StorageRuns.AppendKeepsIndexesClean | chainbreaker/storage/backend.py:324-336 | A finished append turns the crash-free indexes of a chain into those of the longer chain |
| StorageRuns.CleanIndexesAreInverse | chainbreaker/storage/backend.py:324-336 | Crash-free indexes hold exactly the heights and hashes of the chain and are inverse to each other |
| StorageRuns.StaleIndexSurvives | chainbreaker/storage/recovery.py:161-169 | A run that shows the failing case: crash at height 1, recover, append another block, and the first block's hash is still indexed |
| StorageRuns.LimitedRecovery | chainbreaker/storage/recovery.py:100-122 | With a height limit the safe height is HEAD, the limit minus one, or 0, by case |
| StorageRuns.LimitedRecoveryHead | chainbreaker/storage/recovery.py:100-142 | After a limited recovery HEAD names the block at its height if and only if the limit does not cut the chain, or is 1 |
| DamagedStores.RecoveryRollsBackToDamage | chainbreaker/storage/recovery.py:51-122 | For every disk: nothing is rolled back if and only if at each height from 1 to the start the header file is there, whole and hashes to the hash claimed above it, and the block file decodes to a block with that hash; otherwise the safe height is one below the highest height that fails |
| DamagedStores.EveryDiskHasAStart | chainbreaker/storage/recovery.py:75-103 | On every disk the walk starts at the smallest of HEAD, the highest COMMIT and the limit; a HEAD that is missing, garbled or of another genesis counts as height 0 |
| DamagedStores.DamageIsRolledBack | chainbreaker/storage/recovery.py:51-66 | A header or block file that is missing, damaged or not of the other makes recovery roll back, to just below that height if and only if nothing above it is damaged |
| DamagedStores.RecoveryLeaves | chainbreaker/storage/recovery.py:124-142 | Of any disk a finished recovery leaves exactly the files up to the safe height, moves HEAD there only if it was elsewhere, and touches neither journal nor staged files |
| DamagedStores.RecoveryReindexes | chainbreaker/storage/recovery.py:144-169 | On any disk the new indexes have exactly the readable blocks left, with the highest height where two have one hash; with no readable block the old ones stay |
| DamagedStores.EveryRestartLosesABlock | chainbreaker/storage/recovery.py:105-142 | After any rollback HEAD carries the genesis hash at the safe height, and each further recovery rolls back one more block until none is left |
| DamagedStores.RecoveryIsStableExactlyWhen | chainbreaker/storage/recovery.py:105-142 | A second recovery leaves HEAD alone if and only if the first kept the tip HEAD named, or no block at all |
| AppendOrder.WrittenAhead | chainbreaker/storage/backend.py:225-320 | Wherever an append stops: nothing is published before REGISTRY_STAGED is journalled, everything is by INDEX_STAGED, a snapshot at every hundredth height or over an old one, HEAD moves after COMMIT only, and what is journalled as staged stays staged until then |
| AppendOrder.FinishedAppend | chainbreaker/storage/backend.py:225-320 | Finished, the six records are journalled in order, header, block, snapshot and index entries are there, HEAD has moved and the staged files are gone |
| Formats.DecodeInvertsEncode | chainbreaker/storage/formats.py:43-146 | A block record decodes to r if and only if it is the encoding of r and header codec and JSON reader take it |
| Formats.RecordsAreExact | chainbreaker/storage/formats.py:114-118 | A decodable record followed by anything does not decode |
| Formats.HeadRoundTrip | chainbreaker/storage/formats.py:149-189 | HEAD reads back as written if and only if both hashes are lower-case hex and the network id has no colon; it never reads back as something else |
| Layouts.BlockRecordExactlyWhen | chainbreaker/storage/formats.py:43-146 | The byte strings that decode, offset by offset: magic CBB2, version 2, header length 149, the header, a zero byte, body length, number of transactions, body, its hash, four zeros; and where each field is read |
| Layouts.HeadIsLaidOut | chainbreaker/storage/formats.py:149-156 | The text of HEAD, position by position: the height in at least twenty digits, then hash, network id, genesis hash and version between colons, and a newline; refused only if a hash is not 64 characters long |
| JournalFile.WholeRecordDecodes | chainbreaker/storage/formats.py:192-239 | An encoded record decodes to itself, whatever follows it |
| JournalFile.TornRecordFails | chainbreaker/storage/formats.py:206-239 | A record with any of its end missing does not decode |
| Layouts.JournalRecordExactlyWhen | chainbreaker/storage/formats.py:192-239 | The byte strings that decode, offset by offset: magic CBJR, kind at 4, sequence number at 5, height at 13, payload length at 21, payload, and the hash of all but the magic |
| JournalFile.TruncatedJournal | chainbreaker/storage/journal.py:67-81 | A journal cut off at any byte reads back as the longest prefix of whole records |
| JournalFile.WholePiecesIsLongest | chainbreaker/storage/journal.py:67-81 | That prefix is the longest that fits |
| JournalFile.LastCommitIsHighest | chainbreaker/storage/recovery.py:34-48 | The last-commit scan gives the largest height of any COMMIT, and one with that height exists |
| JournalFile.Journal.HighestSeq | chainbreaker/storage/journal.py:31-44 | The loop finds the largest sequence number readable |
| JournalFile.Journal.ReadRecords | chainbreaker/storage/journal.py:67-81 | The loop reads every record up to the first that does not decode |
| JournalFile.Journal.Append | chainbreaker/storage/journal.py:46-61 | The file grows by the record numbered one above everything readable; a record that cannot be encoded changes nothing |
| JournalFile.ReadLastCommitHeight | chainbreaker/storage/recovery.py:34-48 | The scan loop computes the last-commit height of what is readable |
| JournalFile.AppendsKeepNumbering | chainbreaker/storage/journal.py:46-61 | Appending to whole records numbered 1, 2, 3, ... keeps them so and keeps every record readable |
| JournalFile.JournalsBuiltByAppend | chainbreaker/storage/journal.py:46-81 | A journal built only by append reads back whole, numbered 1, 2, 3 and so on |
| StorageJournal.FileAndModelAgree | chainbreaker/storage/recovery.py:34-48 | Scanning the file that a store's appends wrote reads exactly the COMMIT height the store model uses |
| Envelope.ParseInvertsSerialize | chainbreaker/network/envelope.py:61-189 | Parsing accepts exactly the byte strings serializing can produce, and gives the envelope back |
| Layouts.EnvelopeExactlyWhen | chainbreaker/network/envelope.py:61-158 | The byte strings that parse, offset by offset: magic CBN1, version 1, the 25 letters of the network id, type 1 to 13, flags below 4, a big-endian length, the payload's hash; and where type, flags and payload are read |
| Framing.EnvelopeFraming.Consume | chainbreaker/network/socket/framing.py:40-66 | What a call returns and leaves in the buffer is what draining buffer plus data gives |
| Framing.EnvelopeFraming.TryParseOne | chainbreaker/network/socket/framing.py:68-139 | One attempt drops, waits, cuts or refuses as the step on the buffer says |
| Layouts.FramesAreCutExactlyWhen | chainbreaker/network/socket/framing.py:68-139 | A frame is cut off if and only if one lies whole in front of the buffer by its own id length and payload length; it is refused if and only if the length announced is over the limit |
| Framing.DrainInTwo | chainbreaker/network/socket/framing.py:40-139 | Draining a prefix, then the leftover with the rest of the stream, is draining the whole |
| Framing.ChunkingIsIrrelevant | chainbreaker/network/socket/framing.py:40-139 | Unless the frame buffer overflows, any chunks yield what the whole stream yields at once: envelopes, exception, leftover |
| Framing.SplittingsAgree | chainbreaker/network/socket/framing.py:40-139 | Two ways of cutting one stream agree on envelopes and leftover |
| Framing.LeftoverIsShort | chainbreaker/network/socket/framing.py:68-139 | A call with data that does not raise leaves less than that behind, whatever was held before |
| Framing.LeftoverStaysShort | chainbreaker/network/socket/framing.py:40-139 | Whatever chunks a fresh framer has taken without raising, empty ones included, it holds less than the largest message, or than 109 bytes if that is smaller |
| Framing.EnvelopesSurviveTheStream | chainbreaker/network/socket/framing.py:40-139 | Garbage without a magic and then serialized envelopes, in any chunks, come out as exactly those envelopes, in order, with nothing left |
| Governance.VerifyGovernanceSignatures | chainbreaker/governance.py:343-374 | Accepts if and only if indices are in range and distinct and at least threshold of them verify; each error only for its own cause |
| Governance.ThresholdManyKeysSigned | chainbreaker/governance.py:343-374 | Authorisation means that at least threshold different governance keys signed |
| Governance.AuthorisedExactlyWhen | chainbreaker/governance.py:343-374 | Authorised if and only if every key index exists, none occurs twice, and threshold many different ones come with a signature that verifies under their key |
| Governance.SignedFields | chainbreaker/registry_state.py:809-811 | Two transactions have one signing hash if and only if curator id, public key, previous root, network id and kind are equal and so is every field of the action but the curator's signature |
| Governance.IdsAreExact | chainbreaker/chain.py:64-80 | Two transactions have one transaction id if and only if all their fields are equal, the curator's signature included, and they carry the same governance signatures in any order |
| Governance.SignatureOrderIsIrrelevant | chainbreaker/chain.py:64-80 | Reordering signatures changes neither authorisation nor transaction id |
| Registry.ApplyKeepsWellFormed | chainbreaker/registry_state.py:719-1081 | Every accepted register, rotate or revoke keeps the registry invariant |
| Registry.ReachableStatesAreWellFormed | chainbreaker/registry_state.py:719-1081 | The invariant holds after every run from a well-formed state |
| RegistryHistory.ReachableRegistry | chainbreaker/registry_state.py:761-785 | After every run from genesis: ids sorted, at most two records a curator, rotation pairs meet exactly, at most one active at any height, no shared public key |
| RegistryHistory.ApplyDeepens | chainbreaker/registry_state.py:791-861 | An applied transaction names the state before it, is recorded in the state after it, and the hash depth grows |
| RegistryHistory.RunDeepens | chainbreaker/registry_state.py:719-755 | Hash depth grows by at least one per applied transaction |
| RegistryHistory.NothingIsAppliedTwice | chainbreaker/registry_state.py:791-1081 | In a successful run no state recurs and no two transactions have the same signed body |
| RegistryHistory.ActiveKeyAtIsExact | chainbreaker/registry_state.py:171-205 | active_key_at names exactly the key in force if and only if the height is not shadowed by a later record; there it answers None |
| RegistryHistory.KeyWasValidAtIsExact | chainbreaker/registry_state.py:209-235 | key_was_valid_at agrees with the records of the state it is asked of if and only if the height is not one it claims too early |
| RegistryHistory.RotationLeavesAPair | chainbreaker/registry_state.py:953-1013 | A rotation leaves exactly the retired and the new record, meeting at the activation height |
| RegistryHistory.RotationRestoresCurator | chainbreaker/registry_state.py:921-1013 | A rotated curator is in force from the activation height on, even if it had been revoked |
| RegistryHistory.RevocationDropsGovernanceFields | chainbreaker/registry_state.py:1081 | Governance keys, threshold and network id survive a run if and only if it revokes nobody |
| RegistryEffects.OnlyOneCuratorChanges | chainbreaker/registry_state.py:829-1081 | An accepted transaction takes effect after its block, leaves the stated records for its curator and touches no other curator |
| RegistryEffects.AcceptedMeansSigned | chainbreaker/registry_state.py:719-755 | Accepted means signed by at least threshold different governance keys, naming the state before, and for rotate and revoke signed with the latest record's key |
| RegistryEffects.AcceptedExactlyWhen | chainbreaker/registry_state.py:719-1081 | Accepted if and only if governance signed it, it names the state before, its height is above the block's, and: a register has a new id and a new key; a rotate names the latest record's key, bears its signature, and brings a different key no other curator has; a revoke the same, for a record not revoked and not later; the fault is governance's if and only if governance did not sign |
| RegistryEffects.LatestIsFirstHighest | chainbreaker/registry_state.py:171-187 | The record asked is the first of those with the largest activation height |
| RegistryEffects.NoKeyMoves | chainbreaker/registry_state.py:761-1013 | One transaction never moves a public key from one curator to another |
| RegistryEffects.KeysStayWithTheirCurator | chainbreaker/registry_state.py:719-1081 | Over any run a key stays with its curator as long as it stays listed |
| RegistryEffects.KeyIsDroppedExactlyWhen | chainbreaker/registry_state.py:953-1081 | A transaction takes a key off the list if and only if it drops the curator's other record and does not bring that key back |
| RegistryEffects.InForceAfter | chainbreaker/registry_state.py:953-1081 | At heights up to the block, only the curator's latest record still counts after the transaction |
| RegistryEffects.PastIsKeptExactly | chainbreaker/registry_state.py:719-1081 | A transaction leaves who was in force in the past alone if and only if it drops no record that was in force and rotates no record already revoked |
| RegistryLookup.AnswerChangesExactlyWhen | chainbreaker/registry_state.py:209-235 | A later transaction changes what the lookup answers about a height if and only if the latest record does not vouch for the key and it either rotates that very key out with no other record vouching, or drops the other record, which did |
| RegistryLookup.LookupAgainstHistory | chainbreaker/registry_state.py:209-235 | Asked of any later state, the lookup agrees with the state after that height if and only if its answer was turned an even number of times, a too early claim counting as one |
| RegistryLookup.RightThroughoutExactlyWhen | chainbreaker/registry_state.py:209-235 | It is right in every later state if and only if nothing was claimed early and no later transaction turns it |
| RegistryLookup.HistoricalLookup | chainbreaker/registry_state.py:209-235 | The same along an accepted chain: the registry after block n asked about block x, against the registry after block x |
| Serialization.DecodedEncoding | chainbreaker/registry_state.py:405-685 | Decoding the encoded bytes gives the state with records sorted and None markers read as None, all bytes consumed |
| Serialization.RoundTripIffCanonical | chainbreaker/registry_state.py:405-685 | The round trip restores a state if and only if it is canonical |
| Layouts.StateIsLaidOut | chainbreaker/registry_state.py:571-685 | The canonical bytes, offset by offset: version, network id, keys, threshold, and the records in order of id, each with its key, two heights and three digests in their places |
| Sorting.LexIsDictionaryOrder | chainbreaker/registry_state.py:411-443 | Ids are ordered by the first byte that differs, a prefix before what it begins |
| Serialization.ReachableStatesRoundTrip | chainbreaker/registry_state.py:571-631 | On representable states the reducer reaches, decoding undoes encoding |
| Serialization.EqualRootsEqualStates | chainbreaker/registry_state.py:681-685 | Equal registry roots mean equal states, when the hashes involved do not collide |
| Merkle.MerkleTree.GetRoot | chainbreaker/crypto.py:94-116 | The tree's root is the recursive pairwise root, and None without leaves |
| Merkle.MerkleTree.GetProof | chainbreaker/crypto.py:119-126 | The loop collects the sibling of each node on the way up |
| Merkle.BuildLevels | chainbreaker/crypto.py:100-111 | The level-by-level loop builds the levels of the recursive tree |
| Merkle.VerifyProof | chainbreaker/crypto.py:127-136 | The loop accepts if and only if climbing from the leaf reaches the root |
| Merkle.ProofsAreAccepted | chainbreaker/crypto.py:119-136 | Every leaf's own proof exists, has full height and is accepted |
| Merkle.AcceptedProofsAreTrue | chainbreaker/crypto.py:127-136 | Without collisions a full-height proof is accepted if and only if it is the own proof of the leaf at that index |
| Merkle.RootDeterminesLeaves | chainbreaker/crypto.py:100-111 | Without collisions equally long leaf lists with equal roots are equal |
| Merkle.RepeatedTailKeepsRoot | chainbreaker/crypto.py:104-108 | Repeating the last of an odd number of leaves keeps the root: equal length is needed |
| Merkle.RootOfParts | chainbreaker/crypto.py:94-116 | The root over 2^k leaves and at most as many more is the pair of the root of the first, on the left, and the root of the others, paired with itself up to the same height |
| Admission.TreeHashIsRoot | chainbreaker/block.py:655-665 | Over transaction hashes it is the tree split at the largest power of two, the smaller part doubled up to height |
| Merkle.RustMerkleRoot | rust-verifier/src/lib.rs:149-173 | The in-place Rust loop computes the same root |
| MedianTime.MajorityBracketsMedian | chainbreaker/chain.py:414-428 | Where more than half of the last eleven timestamps lie in a range, so does the median, whatever the others say |
| MedianTime.MedianSplitsWindow | chainbreaker/chain.py:414-428 | The median is a timestamp of the window with fewer than half before it and at most half after it |
| MedianTime.MedianStep | chainbreaker/chain.py:414-428 | One more block, later than the median, never lowers it, for the growing and the full window |
| MedianTime.MedianNeverDecreases | chainbreaker/chain.py:862-868 | On a chain whose blocks are each later than their median the median never decreases |
| MedianTime.LaterThanEveryEarlierMedian | chainbreaker/chain.py:862-868 | Each block is later than the median at every earlier height |
| MedianTime.NextTimestampIsAdmissible | chainbreaker/chain.py:432-450 | The timestamp chosen for the next block satisfies the median rule whatever the clock says |
| MedianTime.NextTimestampIsEarliest | chainbreaker/chain.py:432-450 | It is the earliest time not before the clock, later than the last block and later than the median |
| Difficulty.AdjustIsBounded | chainbreaker/chain.py:496-524 | An adjusted target stays in range and moves by at most a factor of four |
| Difficulty.AdjustIsMonotone | chainbreaker/chain.py:496-524 | More measured time never makes the target harder |
| Difficulty.AdjustIsProportional | chainbreaker/chain.py:496-524 | Between the clamps the target is scaled by measured over expected time |
| Difficulty.PerfectTimingTightens | chainbreaker/chain.py:476-506 | Ten blocks exactly 600 seconds apart cut the target to nine tenths, because nine intervals are measured |
| Difficulty.BoundaryReadsTwoTimes | chainbreaker/chain.py:474-502 | Two chains with one last target and the same timestamps at heights h - 10 and h - 1 expect the same target at the boundary h, whatever lies between |
| Difficulty.BoundaryIsProportional | chainbreaker/chain.py:496-524 | For arbitrary timestamps: between the clamps the target at a boundary is the last target times the time from h - 10 to h - 1, over 6000 |
| Difficulty.BoundaryIsClamped | chainbreaker/chain.py:506-524 | Up to 1500 seconds, and for a backward clock, it is a quarter of the last target; from 24000 on four times it, or MAX_TARGET |
| Difficulty.TargetsStayInRange | chainbreaker/chain.py:454-524 | All targets of a chain stay in [1, MAX_TARGET] |
| Difficulty.TargetIsConstantInWindow | chainbreaker/chain.py:454-470 | Targets are constant inside a ten-block window |
| Difficulty.BoundaryMovesByFour | chainbreaker/chain.py:474-524 | At a boundary the target moves by at most a factor of four |
| Difficulty.TargetFloor | chainbreaker/chain.py:474-524 | After k boundaries the target is at least the genesis target over 4^k |
| Difficulty.WorkGrowsWithEveryBlock | chainbreaker/chain.py:922-938 | Chain work grows by at least one per block |
| Difficulty.BlockAddsLedgerWork | chainbreaker/chain.py:922-938 | One more block adds exactly the number of times its target fits into MAX_TARGET |
| Blocks.HashDeterminesBlock | chainbreaker/block.py:655-665 | Blocks with equal hashes and equally many transactions that match their Merkle roots are equal |
| Blocks.EqualHashesUpToRepeats | chainbreaker/block.py:655-665 | Of two blocks with one hash that match their Merkle root, the longer only repeats transactions of the shorter |
| Admission.VerifiedExactlyWhen | chainbreaker/block.py:700-801 | A block verifies if and only if version is 2, target in range, Merkle root right, work done, timestamp after 0 and the median and at most 7200 seconds ahead, and schema and validator take each of its transactions |
| Admission.BlockAppliesExactlyWhen | chainbreaker/chain.py:334-350 | A block applies if and only if each mutation in it is well formed, names this network and applies to the state the ones before it left; the result is that of the mutations in order |
| Blocks.ApplyTransactions | chainbreaker/chain.py:334-350 | The loop folds the registry mutations in order and stops at the first fault |
| Blocks.Replay | chainbreaker/chain.py:304-330 | The loop recomputes the state at a height from genesis |
| Blocks.StateOfPrefix | chainbreaker/chain.py:304-330 | The state at a height depends on nothing above it |
| Chain.OpenLedger | chainbreaker/chain.py:100-260 | Building a ledger fails on a genesis that is not the identity's or blocks that do not replay, and otherwise gives one whose cache is the replay |
| Chain.Ledger.ReplayRegistryStates | chainbreaker/chain.py:270-300 | Fills the cache with the replayed state of every height, or reports the fault that stops the replay |
| Chain.Ledger.StateAt | chainbreaker/chain.py:304-330 | Gives the replayed state, or an error outside the chain |
| Chain.Ledger.AddBlockV2 | chainbreaker/chain.py:732-812 | Adds the block if and only if it is admissible, keeps the cache equal to the replay, and changes nothing when it refuses |
| Admission.AdmittedExactlyWhen | chainbreaker/chain.py:732-812 | Admissible if and only if the block links to the tip, carries the expected target, names the registry state before it, its header is in order, its timestamp is at most 7200 seconds ahead, schema and validator take each transaction, and its mutations apply |
| Admission.FailingTransactionIsRefused | chainbreaker/block.py:783-801 | A block with one transaction that schema or validator refuses is never admissible |
| Chain.Ledger.ValidateChain | chainbreaker/chain.py:816-918 | True if and only if every block is valid and no cached state contradicts the replay; overwrites nothing cached |
| Chain.Ledger.ValidateBlock | chainbreaker/chain.py:836-912 | The checks of one block in full validation, with its recomputed state |
| Admission.ValidExactlyWhen | chainbreaker/chain.py:836-912 | Full validation of one block asks exactly the same without the clock |
| Admission.AcceptedTransactionsPass | chainbreaker/block.py:783-801 | On every accepted chain schema and validator take every transaction of every block above genesis, every mutation is well formed and names this network, and every header carries its work |
| Admission.GenesisExactlyWhen | chainbreaker/chain.py:816-832 | Genesis is valid if and only if its header is the identity's, with version 2 and no predecessor, and it is the frozen alpha block or in order by itself |
| Admission.IdentityExactlyWhen | chainbreaker/chain.py:178-266 | The identity holds if and only if header and first registry root are its own, and only on alpha are the governance keys the three placeholders, in any order |
| Admission.GenesisStateExactly | chainbreaker/chain.py:270-300 | The first registry state has no curators, schema 1, the ledger's network id and threshold, and its governance keys in dictionary order |
| Chain.AdmissionIsValidation | chainbreaker/chain.py:732-918 | A block is admissible on the blocks below it if and only if full validation accepts it and it is at most two hours ahead of the clock |
| Chain.GrownChainsValidate | chainbreaker/chain.py:816-918 | A chain passes full validation if and only if its genesis does and every block could have been admitted in turn |
| Chain.EveryLedgerValidates | chainbreaker/chain.py:732-918 | Whatever is offered to a ledger with a valid genesis, the chain it ends with extends the old one and passes full validation |
| Chain.HistoryDecides | chainbreaker/chain.py:304-330 | State, expected target, median and validity at a height depend only on the chain up to it |
| Chain.AcceptedChains | chainbreaker/chain.py:846-880 | Every accepted chain is on target, and each block later than its median |
| Chain.AcceptedTargets | chainbreaker/chain.py:454-524 | On every accepted chain of a standard identity targets stay in [1, MAX_TARGET], stay at or above MAX_TARGET / 4^k after k boundaries, and move by at most a factor of four at each |
| Chain.AcceptedProgress | chainbreaker/chain.py:922-938 | On every such chain work grows by at least one per block, the median never goes back, and each block is later than every earlier median |
| Chain.HashFixesEffect | chainbreaker/chain.py:334-350 | A block hash fixes what the block does to the registry, whichever transactions are delivered under it |
| Chain.HeadersFixStates | chainbreaker/chain.py:304-330 | The header at a height of an accepted chain fixes the registry state there |
| Chain.ChainIsARun | chainbreaker/chain.py:270-300 | The registry of a chain is the run of all its mutations in order |
| Chain.NoMutationRepeats | chainbreaker/chain.py:334-350 | Along an accepted chain no mutation occurs twice, in one block or several, under any signatures |
| Chain.ChainStatesAreWellFormed | chainbreaker/chain.py:334-350 | Every state of an accepted chain satisfies the registry invariant, and the next header names it |
| ForkChoice.BranchWork | chainbreaker/reorg.py:96-106 | The loop sums block work, or raises if a target is not positive |
| ForkChoice.BlockAddsWork | chainbreaker/reorg.py:96-106 | One more block adds exactly the number of times its target plus one fits into 2^256 |
| ForkChoice.SuffixWorkDecides | chainbreaker/reorg.py:630-638 | With a shared prefix, the difference in suffix work is the difference in total work |
| ForkChoice.FindCommonAncestor | chainbreaker/reorg.py:204-242 | The loop gives the highest height with equal hashes, or an error |
| ForkChoice.ComputeTargets | chainbreaker/reorg.py:582-590 | The targets expected of a suffix, or the fault of the ledger built to compute one |
| ForkChoice.AncestorEndsCommonPrefix | chainbreaker/reorg.py:204-242 | On linked chains that height ends the longest common header prefix |
| ForkChoice.ValidateCandidateSuffix | chainbreaker/reorg.py:248-370 | The loop judges the suffix block by block; governance faults become ReorgError, registry faults escape |
| ForkChoice.EvaluateCandidate | chainbreaker/reorg.py:480-694 | The verdict, in the order the source decides it, including the exceptions that escape |
| ForkChoice.JudgeSuffix | chainbreaker/reorg.py:576-694 | Validation before work comparison; ties keep the current chain |
| SuffixVerdicts.FaultySuffixVerdict | chainbreaker/reorg.py:576-628 | A candidate that gets as far as its suffix is kept out as invalid if and only if some block is not sound or its transactions fail, except that RegistryError escapes if and only if every block up to one is sound and that one ends in a registry fault |
| SuffixVerdicts.GovernanceErrorExactlyWhen | chainbreaker/reorg.py:540-600 | GovernanceError escapes if and only if the current chain itself runs in a governance fault: up to the fork under the default network id, or below the last target under the identity's |
| ForkAgreement.BlockAgrees | chainbreaker/reorg.py:280-370 | One block: fork choice's checks, the link and the ledger-only checks together are the ledger's checks |
| ForkAgreement.SuffixAgrees | chainbreaker/reorg.py:248-370 | Fork choice's acceptance with link and ledger-only checks is equivalent to ledger validity with the expected targets; the states agree |
| ForkAgreement.LedgerSuffix | chainbreaker/reorg.py:248-370 | A suffix the ledger grew passes, with the ledger's states, if and only if its blocks carry the expected targets; otherwise it ends in a ReorgError |
| ForkAgreement.OtherNetworksNeverSwitch | chainbreaker/reorg.py:698-714 | On any other network the engine never switches between chains the ledger accepts |
| LongestChain.EngineTargetIsCurrents | chainbreaker/reorg.py:718-766 | The target expected at a height is the current chain's own there, or its tip's beyond it |
| LongestChain.AcceptedFollows | chainbreaker/reorg.py:248-370 | Every suffix the engine accepts carries those targets |
| LongestChain.MeasuresAgree | chainbreaker/crypto.py:154-162 | On every suffix the engine accepts its measure of work, the ledger's and the length order the whole chains alike |
| LongestChain.LongestAcceptedWins | chainbreaker/reorg.py:480-694 | The engine switches if and only if the fork is not too deep, the suffix is accepted, and the candidate is longer, whatever it weighs |
| LongestChain.LedgerChainVerdict | chainbreaker/reorg.py:480-694 | The whole verdict on any two ledger chains: too deep, or other targets than the current chain's, or longer, or not |
| LongestChain.HeaviestWinsExactlyWhen | chainbreaker/reorg.py:480-694 | The heavier of two ledger chains is chosen if and only if the candidate follows the current chain's targets, or is not heavier |
| LongestChain.SuffixPasses | chainbreaker/reorg.py:718-766 | With no retarget between the fork and the candidate's tip, but for a known one at the first height, its suffix passes with the ledger's states |
| Handshake.HandshakeSession.constructor | chainbreaker/network/transport/handshake.py:85-90 | A session starts in NEW and knows nothing |
| Handshake.HandshakeSession.TransitionTo | chainbreaker/network/transport/handshake.py:92-97 | Moves along the table only |
| Handshake.HandshakeSession.Reject | chainbreaker/network/transport/handshake.py:179-185 | Records the reason; raises from ESTABLISHED and CLOSED |
| Handshake.HandshakeSession.SendLocalHello | chainbreaker/network/transport/handshake.py:99-115 | Sends the local parameters, from NEW only |
| Handshake.HandshakeSession.HandleHello | chainbreaker/network/transport/handshake.py:117-142 | Learns the peer and the shared features, or rejects with the first reason that applies |
| Handshake.HandshakeSession.HandleHelloAck | chainbreaker/network/transport/handshake.py:144-160 | Establishes on a positive HELLO_ACK in WAIT_HELLO_ACK only |
| Handshake.HandshakeSession.BuildHelloAck | chainbreaker/network/transport/handshake.py:162-177 | Available in three states only |
| Handshake.HandshakeSession.Close | chainbreaker/network/transport/handshake.py:187-190 | Closes, except that from NEW it raises |
| Handshake.HelloExactly | chainbreaker/network/transport/handshake.py:117-142 | A HELLO is welcome if and only if one is expected and version, network and genesis agree; then exactly the features both have are shared; any other message rejects for the first thing wrong with it, or raises once established or closed |
| Handshake.AckExactly | chainbreaker/network/transport/handshake.py:144-160 | Only a positive HELLO_ACK in WAIT_HELLO_ACK establishes; a negative one gives its reason, or "rejected" |
| Handshake.TableExactly | chainbreaker/network/transport/handshake.py:33-45 | The table allows a move if and only if it goes up, to ESTABLISHED only from an exchange under way, to WAIT_HELLO_ACK only from SEND_HELLO, to VALIDATING only from NEW, to CLOSED from anywhere but NEW |
| Handshake.CallKeepsSound | chainbreaker/network/transport/handshake.py:78-190 | One call keeps a session sound if and only if it is not a bare transition into a state whose HELLO or reason is missing |
| Handshake.SoundThroughoutExactlyWhen | chainbreaker/network/transport/handshake.py:78-190 | Over any calls in any order, bare transitions included, a session stays sound throughout if and only if every transition is earned; sound means a known peer of its own network and exactly the shared features |
| Handshake.SessionsOnlyAdvance | chainbreaker/network/transport/handshake.py:33-45 | No session goes back; a closed one stays closed, a rejected one closes and an established one is rejected only by a bare transition |
| TwoParties.NeverDeadlocked | chainbreaker/network/transport/manager.py:90-167 | Unless both sides wait for a HELLO, in every interleaving one of them can go on until both have ended, within eight steps; two inbound sides cannot start |
| TwoParties.EstablishedMeansCompatible | chainbreaker/network/transport/manager.py:90-167 | In any roles, established at any moment of any run means equal version, network and genesis, and the shared features |
| TwoParties.BothOrNeither | chainbreaker/network/transport/manager.py:90-131 | When a run ends both sides are established with equal capabilities, or neither is, exactly by compatibility |
| TwoParties.EndsAsTheManagerDoes | chainbreaker/network/transport/manager.py:90-167 | In any run with any peer, an endpoint that has ended did what the manager's method does with the messages it took: agreed, refused, failed on a closed transport, or stuck |
| TwoParties.MixedRolesDisagree | chainbreaker/network/transport/manager.py:133-167 | One accepting and one inbound side are never both established in any run; at its end the acceptor has given up and the inbound side is established if and only if they are compatible |
| Manager.ConnectionManager.Prepare | chainbreaker/network/transport/manager.py:189-214 | Refuses banned peers, a full manager and a taken id; otherwise registers a fresh session |
| Manager.ConnectionManager.RecordReject | chainbreaker/network/transport/manager.py:216-219 | Counts the refusal and bans at the third |
| Manager.ConnectionManager.Accept | chainbreaker/network/transport/manager.py:90-131 | Whatever fails, the entry is taken out again; refusals and only refusals are counted |
| Manager.ConnectionManager.RegisterInbound | chainbreaker/network/transport/manager.py:133-167 | The same, except that an attempt that never got a HELLO leaves its entry |
| Manager.ConnectionManager.Settle | chainbreaker/network/transport/manager.py:128-131 | The clean-up takes the entry out unless closing the session raises |
| Manager.ConnectionManager.Remove | chainbreaker/network/transport/manager.py:169-172 | The entry goes |
| Manager.AcceptSucceedsWhen | chainbreaker/network/transport/manager.py:90-131 | Accept succeeds if and only if a compatible HELLO and a positive HELLO_ACK arrive and both sends get through |
| Manager.OutcomesExactlyWhen | chainbreaker/network/transport/manager.py:90-167 | Either kind of attempt is refused if and only if a bad HELLO or HELLO_ACK arrives, fails where the transport fails first, is stuck if and only if an inbound one never got a HELLO, and otherwise agrees on the shared features |
| Manager.GoesAheadExactlyWhen | chainbreaker/network/transport/manager.py:189-214 | An attempt goes ahead if and only if the peer is not banned, fewer than the maximum are connected and the id is not taken |
| Manager.BannedExactlyAfterThree | chainbreaker/network/transport/manager.py:216-219 | Over any attempts with a new manager a peer is banned if and only if it was refused three times, and it is never refused a fourth time |
| Manager.BooksStayInOrder | chainbreaker/network/transport/manager.py:189-219 | Over any attempts: never over capacity, entries established or waiting, banned means exactly three refusals, no ban lifted |
| Manager.EntriesStayUntilRemoved | chainbreaker/network/transport/manager.py:164-167 | An entry that got no HELLO stays until it is removed |
| Limits.RateLimiter.Check | chainbreaker/network/transport/limits.py:54-74 | Drops what left the window and answers by the limits; dropping is its only change |
| Limits.RateLimiter.Record | chainbreaker/network/transport/limits.py:76-84 | Adds one stamp a message and one for the bytes, unless there are none |
| Limits.EveryWindowIsBounded | chainbreaker/network/transport/limits.py:54-84 | With a clock that never goes back, the messages of the offers let through in any window of the configured length add up to no more than allowed, and so do their bytes |
| Limits.AdmitsExactlyWhatFits | chainbreaker/network/transport/limits.py:54-84 | An offer is let through if and only if its messages and those of the offers let through in the last window, and likewise the bytes, stay within the limits |
| Limits.CheckCountsTheWindow | chainbreaker/network/transport/limits.py:54-84 | The same for check and record called in any order: check answers by what was recorded within the last window, its own messages and bytes added |
| Limits.TokenBucket.Consume | chainbreaker/network/gossip/engine.py:42-50 | Refills, then grants if and only if the amount is there |
| Limits.GrantsAreBounded | chainbreaker/network/gossip/engine.py:42-50 | Over any stretch of a run the grants stay within capacity plus rate times elapsed time |
| Limits.GrantedExactlyWhen | chainbreaker/network/gossip/engine.py:42-50 | A request is granted if and only if it fits, with what was granted since the start, within the tokens held then and what has flowed in, and, with what was granted from each earlier request on, within the capacity and what has flowed in since |
| Limits.BucketStaysFull | chainbreaker/network/gossip/engine.py:42-50 | The bucket never goes below zero or above its capacity |
| Switching.SwitchIncreasesWork | chainbreaker/reorg.py:630-694 | Every switch adopts a chain with strictly more work than the current one, linked or not: the current chain up to the fork, the candidate above it |
| Switching.AdoptedIsTheCandidate | chainbreaker/reorg.py:204-242 | Of two linked chains from one genesis the adopted chain has the candidate's headers, and its work |
| Switching.SwitchPlanIsExact | chainbreaker/reorg.py:662-694 | A height is disconnected (connected) if and only if the chains share no block hash from there on; carrying the plan out gives the adopted chain, with the tip reported |
| Switching.AdoptedIsLinkedExactlyWhen | chainbreaker/reorg.py:248-290 | The adopted chain is linked if and only if its first block above the fork is, the one link left to the caller |
| Switching.TipFixesHeaders | chainbreaker/reorg.py:204-242 | On linked chains from one genesis the tip hash fixes every header |
| Switching.WorkGrowsWithEverySwitch | chainbreaker/reorg.py:630-694 | Along any sequence of switches, to candidates of any kind, total work strictly grows |
| Switching.NoTipIsReadopted | chainbreaker/reorg.py:480-694 | Along any sequence of switches that are linked at their forks no tip is ever a tip again |
| Switching.AdoptedIsValidExactlyWhen | chainbreaker/reorg.py:248-370 | After a switch on a ledger chain the ledger accepts the adopted chain if and only if the first link holds and each adopted block passes the target range, timestamp, schema and validator checks |
| UncheckedSwitches.PlainBlockIsAdopted | chainbreaker/reorg.py:480-694 | On genesis alone every empty mined block with the expected target and root is adopted; the ledger accepts the result if and only if the block names genesis and its timestamp is positive and after the median |
| UncheckedSwitches.UnlinkedBlockIsAdopted | chainbreaker/reorg.py:248-290 | The input: whatever wrong predecessor it names and whenever it claims to be made, such a block makes the engine switch to a chain the ledger refuses |
| UncheckedSwitches.AbandonedTipReturns | chainbreaker/reorg.py:480-694 | The run: from [g, t] to [g, y, z], both ledger chains, and by an unlinked block to [g, y, z, t], whose tip is the one left behind |
| RefusedChain.GrownIsValid | chainbreaker/chain.py:732-918 | Empty blocks at any steady pace on any genesis with the easiest target and a timestamp from 0 on make a chain the ledger accepts, provided every header with a target in range has a nonce that meets it |
| RefusedChain.HeavierLedgerChainIsRefused | chainbreaker/reorg.py:718-766 | Under the same proviso, on the default network: a ledger chain of quick blocks outweighs a longer one of slow blocks, and is refused as invalid |
| Sync.SyncEngine.ParseHeaders | chainbreaker/network/sync/header_sync.py:50-74 | The loop checks each header against the one before and the target the ledger gives at its height; the first refusal, or height without a target, ends it |
| SyncProgress.HeadersPassExactlyWhen | chainbreaker/network/sync/header_sync.py:50-74 | The headers pass if and only if each decodes, names the one before it (the first the tip), carries the target expected there, does its work and has version 2; an IndexError escapes if and only if some header, itself linked and all before it in order, lies out of the ledger's reach |
| Sync.SyncEngine.HandleHeaders | chainbreaker/network/sync/engine.py:68-93 | Blocks are asked for only if the headers pass and weigh more than the local chain; every other answer, and the exceptions that escape, leave the pending headers alone |
| Sync.SyncEngine.HandleBlock | chainbreaker/network/sync/engine.py:105-140 | A block is refused, taken by the ledger, or with the last one all pending blocks go to the store; an unparsable payload or a height without a target escapes as an exception |
| Sync.SyncEngine.TakeBlock | chainbreaker/network/sync/engine.py:129-140 | What the ledger admits becomes pending and its header is ticked off; a refusal changes the state only |
| Sync.SyncEngine.Commit | chainbreaker/network/sync/engine.py:142-156 | Pending blocks are appended in order up to the first failure, and forgotten either way |
| Sync.SumWork | chainbreaker/network/sync/header_sync.py:76-77 | The loop sums floor(MAX_TARGET / target), or fails on a target of zero |
| Sync.WorkOfChain | chainbreaker/chain.py:922-938 | It is the ledger's measure of work |
| SyncProgress.NextNeverOutweighs | chainbreaker/network/sync/engine.py:84-88 | One more block never weighs more than the whole chain it extends, retargets and rounding included |
| SyncProgress.RequestsBlocksExactlyWhen | chainbreaker/network/sync/engine.py:68-93 | On a chain on target, blocks are asked for if and only if the headers pass, outnumber the local blocks, and end below height 10 |
| SyncProgress.BlockTakenExactlyWhen | chainbreaker/network/sync/engine.py:105-140 | A block asked for reaches the ledger if and only if it names the last pending block or the tip, its target is within reach and the one expected, and the ledger admits it; an IndexError escapes if and only if only the target is out of reach; any other that parses is refused and changes no chain |
| SyncProgress.SyncCommitsExactlyWhen | chainbreaker/network/sync/engine.py:68-156 | An honest peer's n blocks on a local chain of L blocks are taken over by a working store if and only if n > L and L + 2(n - 1) < 10 |
| SyncProgress.SyncStrandsBlocks | chainbreaker/network/sync/engine.py:105-140 | With n > L and L + n <= 10 <= L + 2(n - 1) an IndexError leaves the first blocks in the ledger and none in the store |
| SyncStore.CallKeepsStep | chainbreaker/network/sync/engine.py:68-162 | One call keeps 'ledger chain = stored chain + pending blocks' if and only if it is not a reset with blocks pending or a commit of which the store does not take every block |
| SyncStore.InStepThroughoutExactlyWhen | chainbreaker/network/sync/engine.py:68-162 | Over any calls: in step all the way if and only if no call loses a block |
| SyncStore.StoredChainIsValid | chainbreaker/network/sync/engine.py:142-156 | As long as nothing was lost, what a restart reads back passes full validation |
| SyncStore.ResetBreaksTheStore | chainbreaker/network/sync/engine.py:158-162 | The run: after a reset between two blocks a later synchronisation reports success, its ledger is valid, and the stored chain is not |
| StorageLedger.LedgerRunsAreRuns | chainbreaker/storage/backend.py:190-322 | A node that appends what its ledger admits on the chain it reads back only ever appends blocks that link: its runs, crashes included, are runs of the store |
| StorageLedger.RestartedLedgers | chainbreaker/storage/backend.py:405-419 | Whatever is cut, recovered or reindexed on the way, the chain such a node reads back passes full validation, replays, and extends every chain it read back before |
| RegistryMemory.LookupInClosedForm | chainbreaker/registry_state.py:209-235 | What a later state answers about a height, from the records right after that height and the curator's own later transactions alone |
| RegistryMemory.HistoricalLookupInClosedForm | chainbreaker/registry_state.py:209-235 | The same along an accepted chain: the registry after block n asked about block x |
| RegistryMemory.RotationsRemember | chainbreaker/registry_state.py:209-235 | After no rotation the answer is as it was; after one, the retired key at every height, and its predecessor before it; after more, exactly the two keys before the newest |
| RegistryMemory.RotationsMislead | chainbreaker/registry_state.py:209-235 | From two rotations on it is wrong about the key before the newest unless that was in force, from three on also about the key that was, unless it is one of those two |
| RegistryEffects.RotationReachesTheExceptions | chainbreaker/registry_state.py:171-235 | After every accepted rotation, until the new key comes into force: active_key_at answers None while the retired key is in force, and before that key's own activation key_was_valid_at claims it too early |
| RegistryEffects.RotationUndoesRevocation | chainbreaker/registry_state.py:953-1013 | Rotating a record whose revocation has taken effect puts the revoked key back in force at those past heights |
| Locator.BuildLocator | chainbreaker/network/sync/header_sync.py:24-36 | The loop names the hashes at the locator heights |
| Locator.LocatorShape | chainbreaker/network/sync/header_sync.py:24-36 | From the tip strictly down to genesis in at most 32 entries, at the depths 0 to 11, 13, 17, 25 and so on |
| Locator.ForkIsFoundNearby | chainbreaker/network/sync/header_sync.py:24-36 | For a fork up to 9 + 2^20 below the tip the first entry not above it is genesis or at most twice as deep |
| Locator.DeeperForksGoToGenesis | chainbreaker/network/sync/header_sync.py:24-36 | Any deeper fork is found at genesis only |

## Left out

- Storage.FlatFileStore.AppendBlock: takes the new registry state as given; the storage path derives it by looking for another body field than the one transactions carry, so it replays nothing.
- StorageRuns.EveryDiskCarriesTheCommittedChain: assumes each appended block links to the tip, which `append_block` does not check; `StorageRuns.AppendIsAtomic` and `StorageRuns.RollsBackExactlyWhen` cover blocks that do not link, and `StorageLedger.LedgerRunsAreRuns` derives the link where the ledger admits each block.
- Framing.LeftoverStaysShort: for a message limit below the longest frame header the bound is 109 bytes, since a header is collected before the limit is looked at.
- LongestChain.LedgerChainVerdict: for identities whose genesis carries the easiest target, as every identity the network code makes does.
- Chain.OpenLedger: always checks the identity; the switch that turns the check off is used only to compute targets.
- Switching.NoTipIsReadopted: takes the first link above each fork as a hypothesis, the one check the source leaves to the caller; `UncheckedSwitches.AbandonedTipReturns` shows it is needed.
- RegistryMemory.RotationsRemember: for rotations that each come into force later than the record before; `RegistryMemory.LookupInClosedForm` has no such condition.
- SyncStore.InStepThroughoutExactlyWhen: a failed write leaves the process alive; crashes and recovery are in `StorageLedger`.
- Limits.EveryWindowIsBounded: uses exact real numbers; rounding of floating-point clock readings is not modelled.
- TwoParties.BothOrNeither: channels are reliable and unbounded and receives do not time out.
- Manager.ConnectionManager.Accept: one attempt at a time; attempts that overlap could count more than three refusals.
- A HEAD of another genesis counts as absent in recovery because RecoveryError is a ValueError (`chainbreaker/storage/recovery.py:90-98`); modelled so, but no run of the protocol produces it.
- Torn journal tails inside a running store: a torn tail is never cut off, so records after it cannot be read. The journal is a list of whole records in `Storage` and bytes in `JournalFile`.
- The ABORT branch of `append_block`: the staged header always hashes to the block hash.
- `atomic_tip_switch`: no code writes the branch it would point at.
- File system calls, temporary files, locks, fsync: only the atomic effect of each durable step is kept.
- SHA-256, Ed25519, zlib and JSON text: parameters or free terms.
- UTF-8 checks when decoding ids, letter case and blanks in hex text, and governance bodies that lack required fields (the schema refuses those blocks first).
- Heights of 2^64 and more, for which the source's packing raises: `Serialization.Serialize` answers None.
- V1 blocks and the legacy registry: deprecated and outside the V2 rules.
- Mining, the command line, archive objects, key files, scripts and vector generators: they search nonces, print, and read and write files around the rules modelled here.
- `next_block_request` of the sync engine: asks for a hash over the header's JSON text, which is no block's hash; the model starts from the block a peer sends.
- Block relay: asks for announced blocks it has not seen, gives each to the ledger and then to the store, and announces it; orphans are kept for a while and dropped when their parent arrives.
- Gossip: drops payloads seen recently or beyond its rates, and forwards the others to a few peers with a smaller time to live.
- Peer discovery: a bounded table of addresses with scores and bans, from which candidates are chosen by score and spread over sources and network prefixes.
- TCP transport and the bounded message queue: read bytes into the framer and hand envelopes on; the queue takes messages out when its byte budget runs short.
- Message dataclasses and field validators: turn JSON payloads into typed fields or raise; the model starts from the fields.

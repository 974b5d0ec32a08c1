# FnzSafe wallet: verified model

A Dafny model of the parts of the FnzSafe wallet whose correctness is hard to see by reading one
function: a transaction-message compiler, a resumable history scan, three asynchronous state machines
of the browser extension, coin selection with its independent checker, and a handful of small stateful
or arithmetic pieces. `dafny verify dfyconfig.toml` checks the whole project.

Each module models one component:

- `SquadsCompiler`, `SquadsMeaning`, `SquadsWire` (over `KeyOrder`): instructions are flattened into one
  key table with a three-number header and `u8` indexes, serialized, and re-expanded for execution.
  `IsCompilation` says what a compiled message is without mentioning the table that computes it.
- `LogDiscovery`, `DiscoveryRuns`: the server side of Safe discovery, with its shrinking block span and the
  cursor it returns, the desktop client's check of that cursor, and whole runs of pages. The RPC provider
  decides freely which ranges it answers.
- `ApprovalProtocol`, `ApprovalSafety`, `ApprovalPaths`, `Revocations`, `RevokedLate`, `LateWrites`: approving a
  site's request. Every stretch between two `await`s is one event; locks, settings changes, revocations,
  timeouts, failures and worker restarts are events too.
- `WalletProtection`: moving the starting wallet from the device store to a password vault, again as events,
  with a worker restart possible at every `await`.
- `CoinSelection`, `BitcoinTransfer`: choosing coins, building a PSBT (BIP 174), and checking one.
- `SafeProposals`, `SafeMerge`, `SafeImport`: checking, signing, merging, importing and executing Safe proposals.
- `VaultModel`, `VaultLegacy`, `VaultMerge`, `VaultEdits`: validating, grouping, merging and renaming in a vault,
  and what becomes of payloads from before there were wallets.
- `Base58` and `TokenBalances` (over `Numerals`), `RequestGuard`, `KdfLimiting`, `TypedDataShape`,
  `ClipboardCleanup` and `PasskeyRelay`: one component each.

Code that loops or updates an object is a method or a class proved against a specification function or
predicate; what the component promises is then proved of that specification. The asynchronous components
are step functions on states, and their theorems range over all sequences of events.

A few lemmas have no row below, because they only spell out the constants, start values or single steps that the
results build on: `BitcoinTransfer.SizesAndLimits`, `LogDiscovery.StartExactly`, `TokenBalances.ValidExactly`,
`ClipboardCleanup.CallsQueue`, `ClipboardCleanup.ClearOfNothing`, `ApprovalPaths.RestartStores`,
`WalletProtection.RestartLands` and `WalletProtection.RestartLocks`.

Assumptions about the environment:

- Hashes, signatures, address derivation, encryption, key derivation and checksums are parameters.
- Request ids and fresh UUIDs are distinct, and the clock does not go back.
- A run of pages in `DiscoveryRuns` sees one unchanged history; failed attempts leave the cursor alone.
- A write to a store is atomic: it has landed or not when the worker restarts.
- Storage operations are not ordered among themselves: a read issued after a write may be answered before that
  write lands, and two writes may land in either order. `LateWrites.InFlightWriteMayLand` needs the former.

Where the code is more permissive or stricter than its name suggests, the model keeps the code and states
the exact boundary:

- After a request's last check the stored settings can still change before the success is posted, exactly
  when a write of other settings is in flight at that moment or has landed since they were read
  (`LateWrites.MayDifferExactly`; first-wallet writes and worker restarts apart). Such a write must have begun
  before the capture, since any later settings change is caught. `LateWrites.InFlightWriteMayLand` is a
  complete run.
- A page that ends beyond offset 100,000 of a range with more logs hands out a cursor the server refuses, and
  no other page does (`DiscoveryRuns.NextCursorAcceptedExactly`; `LimitReached` is such a page). With a
  provider that answers small ranges, a complete run exists exactly when no page on the way is of that kind
  (`DiscoveryRuns.CompletesExactly`).
- A transfer is refused, although its coins may suffice, exactly when the coins at which selection stops meet
  an arithmetic limit or the fee limit of a transaction with change, or leave no change and more than the
  largest fee (`BitcoinTransfer.BuildPsbt`, which states each outcome as an equivalence; `RefusedThoughCovered`
  is a transfer of the second kind).
- Merging three versions of a proposal can depend on the grouping, because a merge's result may have more than
  the 50 signatures a proposal may carry (`SafeMerge.GroupingMatters`). The groupings agree exactly as
  `SafeMerge.GroupingsAgreeExactly` says, and always for proposals verified against one Safe's owners.
- A worker restart can leave a site permitted whose revocation was requested: it forgets the revocations still
  queued, and the permission write in flight, if there is one, may land. A permission there
  after a restart dates from before a revocation of it exactly when that revocation was still queued
  (`Revocations.UndoneByRestartExactly`). `Revocations.RestartMayPermit` is a run in which a site that is not
  permitted when it is revoked is permitted after the restart.
- A site that only adds a chain or signs can get its success although it is no longer permitted, but only if a
  revocation of it, requested before the request was captured, was still queued when the permissions were read
  (`ApprovalPaths.EverySuccessCompletes`; `RevokedLate.MaySucceedUnpermitted` is such a run).
- Grouping a valid payload without wallets can give one that validation rejects, exactly when the recorded phrase
  recovers an account that validation does not find under it, or an account with a blank name gives its name to a
  wallet (`VaultLegacy.GroupedValidExactly`; `BlankNameUnsound` and `OtherPathUnsound` are such payloads). Such a
  vault accepts no import, and at most the rename of a single wallet with a blank name.

## Model

| member | source | states |
|---|---|---|
| KeyOrder.LessExactly | crates/app-services/src/squads_v4.rs:503-503 | the order of the sorted map's keys decides at the first byte that differs, the smaller byte first |
| SquadsCompiler.BuildKeyTable | crates/app-services/src/squads_v4.rs:503-512 | the table holds every mentioned key once, in key order, with the union of the flags of all its mentions |
| SquadsCompiler.TouchTabulates | crates/app-services/src/squads_v4.rs:506-516 | inserting or updating a key keeps the table sorted and changes only that key's presence and flags |
| SquadsCompiler.DropTabulates | crates/app-services/src/squads_v4.rs:517-517 | removing a key takes out that key and nothing else |
| SquadsCompiler.PickLists | crates/app-services/src/squads_v4.rs:519-537 | each of the four passes lists, ascending in the bytes and without repetition, exactly the keys with those two flags |
| SquadsCompiler.FourGroups | crates/app-services/src/squads_v4.rs:514-537 | with the vault set aside, the passes list the writable signers, read-only signers, writable non-signers and the rest |
| SquadsCompiler.AccountIndex | crates/app-services/src/squads_v4.rs:651-657 | returns the first position of the key; fails as missing iff the key is not listed, and as too many iff it is first listed beyond position 255 |
| SquadsCompiler.CompileInstructions | crates/app-services/src/squads_v4.rs:550-563 | every compiled instruction names exactly the program, accounts in order and data of its original; fails only beyond 256 keys |
| SquadsCompiler.CompileTransactionMessage | crates/app-services/src/squads_v4.rs:499-573 | the result is a compilation of the instructions, each of its four groups ascending in the bytes of the keys, and failure means a header count or the key table does not fit |
| SquadsMeaning.CompilationFits | crates/app-services/src/squads_v4.rs:539-541 | a compilation exists only within those limits, so compiling fails exactly outside them |
| SquadsMeaning.CompilationUnique | crates/app-services/src/squads_v4.rs:565-572 | two compilations of the same instructions are equal: what a compilation is leaves no freedom in order, header or indexes |
| SquadsMeaning.KeyTableExact | crates/app-services/src/squads_v4.rs:543-548 | the key table has no duplicates, begins with the vault, and holds exactly the used keys and the vault |
| SquadsMeaning.HeaderCounts | crates/app-services/src/squads_v4.rs:539-541 | the three header numbers count distinct signers, writable signers and writable non-signers, and the table counts distinct used keys, vault included |
| SquadsMeaning.PrivilegesOfIndex | crates/app-services/src/squads_v4.rs:696-713 | the header's index tests say writable or signer exactly for keys some instruction (or the vault) marks so |
| SquadsMeaning.PrivilegesPreserved | crates/app-services/src/squads_v4.rs:659-694 | execution lists each key once, writable iff vault or marked writable, signing iff marked signer and neither vault nor ephemeral signer |
| SquadsWire.WriteSmallBytesU8 | crates/app-services/src/squads_v4.rs:599-603 | appends a one-byte length and the bytes, and fails exactly above 255 bytes, naming the field |
| SquadsWire.WriteSmallBytesU16 | crates/app-services/src/squads_v4.rs:605-609 | appends a little-endian two-byte length and the bytes, and fails exactly above 65,535 bytes |
| SquadsWire.WriteInstructions | crates/app-services/src/squads_v4.rs:627-636 | appends the instruction section, and fails exactly when the list or some instruction is too long |
| SquadsWire.WriteLookups | crates/app-services/src/squads_v4.rs:637-646 | appends the lookup section, and fails exactly when the list or some lookup is too long |
| SquadsWire.SerializeTransactionMessageArg | crates/app-services/src/squads_v4.rs:611-649 | succeeds exactly on messages whose every length fits, with the bytes of the format |
| SquadsWire.ParseInvertsSerialize | crates/app-services/src/squads_v4.rs:611-649 | parsing written bytes returns the message and exactly what followed it, for every message that can be written |
| SquadsWire.ParseOnlySerialized | crates/app-services/src/squads_v4.rs:611-649 | whatever the parser accepts is the written form of the message it returns |
| SquadsWire.CompileAndSerialize | crates/app-services/src/squads_v4.rs:309-312 | compile then serialize succeeds iff at most 255 keys (vault included), 255 instructions, 255 accounts and 65,535 data bytes each; the bytes parse, with nothing left, to the compilation |
| LogDiscovery.QueryRange | apps/extension/src/safe-discovery.ts:14-26 | succeeds iff one of the attempts is answered, with the span of the first that is; the attempts shrink the span by the rule, and a partly consumed range has only one |
| LogDiscovery.RangeExactly | apps/extension/src/safe-discovery.ts:18-18 | an attempt asks for exactly as many blocks as its span, ending at its block, or for all there are |
| LogDiscovery.SmallerExactly | apps/extension/src/safe-discovery.ts:25-25 | a retry takes a tenth of the span, rounded down, and at least 500 blocks |
| LogDiscovery.SortLogs | apps/extension/src/safe-discovery.ts:27-27 | sorting whatever order the provider used gives the range's logs newest first |
| LogDiscovery.ExamineLogs | apps/extension/src/safe-discovery.ts:29-44 | succeeds iff every log that is not removed lies in the range and no lookup is an outage; owned Safes are listed in order and unsupported ones counted |
| LogDiscovery.DiscoverSafes | apps/extension/src/safe-discovery.ts:9-48 | each of the four errors occurs iff its cause does, and otherwise the result is the page of the cursor at the first answered span |
| LogDiscovery.ClientAcceptsPage | apps/desktop/src/lib/safeDiscovery.ts:4-19 | the client accepts every page the server produces, and stops exactly on complete ones |
| LogDiscovery.AcceptedIsConsistent | apps/desktop/src/lib/safeDiscovery.ts:5-14 | whoever sent it, a page the client accepts is consistent, continues where the cursor stood, and is the last one only at block 0 |
| LogDiscovery.AcceptedAdvances | apps/desktop/src/lib/safeDiscovery.ts:15-19 | an accepted next cursor is further on in its block, or at the start of the blocks below |
| LogDiscovery.FollowingEnds | apps/desktop/src/lib/safeDiscovery.ts:4-20 | whatever a server sends, a client can be led on only finitely often |
| LogDiscovery.ListingSplit | apps/extension/src/safe-discovery.ts:18-20 | the history up to a block is the range's logs followed by everything below the range |
| DiscoveryRuns.RunInvariant | apps/extension/src/safe-discovery.ts:45-47 | at every page of a run, what was visited followed by what is ahead is the whole history |
| DiscoveryRuns.CompleteRunVisitsAll | apps/extension/src/safe-discovery.ts:13-47 | a complete run visits every log at or below its starting block exactly once, with falling blocks, and falling indexes within a block, whatever ranges were rejected |
| DiscoveryRuns.RunsAreBounded | apps/extension/src/safe-discovery.ts:45-47 | no run has more pages than logs and blocks ahead of it, so following cursors terminates |
| DiscoveryRuns.CompleteRunReportsAll | apps/extension/src/safe-discovery.ts:31-47 | the accounts of a complete run, page after page, are the owned Safes of the whole history, newest first, and every unsupported one is counted |
| DiscoveryRuns.NextCursorAcceptedExactly | apps/extension/src/safe-discovery.ts:15-28 | the cursor after any page is accepted iff the page does not end beyond offset 100,000 of a range with more logs, and its offset lies inside its own range |
| DiscoveryRuns.LimitReached | apps/extension/src/safe-discovery.ts:45-47 | a page of a block with 100,006 logs whose next cursor is refused |
| DiscoveryRuns.NextServable | apps/extension/src/safe-discovery.ts:18-28 | a provider that answers ranges of at most 500 blocks, and answers alike every time, lets every cursor of a run be served |
| DiscoveryRuns.CompletesExactly | apps/extension/src/safe-discovery.ts:13-47 | with such a provider a complete run from a cursor exists iff no page on the way is past the limit |
| ApprovalSafety.StepKeeps | apps/extension/src/background.ts:526-636 | every event keeps the protocol's invariant |
| ApprovalSafety.EverySuccessIsCurrent | apps/extension/src/background.ts:1589-1623 | over every interleaving, a success is posted only unlocked; a request to switch has exactly its own switch since the capture, and its settings were read last; any other has nothing, and the reviewed settings |
| ApprovalPaths.RunOnPath | apps/extension/src/background.ts:608-640 | at every point of every run, a request has been through exactly the checks and effects that come before this point for its kind |
| ApprovalPaths.EverySuccessCompletes | apps/extension/src/background.ts:608-640 | a success is posted in a live session after the whole path of its kind: connecting checks, writes the permission and checks twice more; switching is found permitted, checks, switches and does the same; signing checks at least twice more after the permission check. A site that connects or switches is permitted then, and any other unless an older queued revocation has run since |
| ApprovalPaths.BumpsCancel | apps/extension/src/background.ts:547-554 | whatever advances the revision, but for protecting, leaves no request waiting for an answer |
| ApprovalPaths.DroppedStaysClosed | apps/extension/src/background.ts:588-606 | a request that was rejected, or ran out of time, before it was approved is never taken up again |
| ApprovalPaths.NothingBeforeUnlocking | apps/extension/src/background.ts:1589-1600 | until the wallet is unlocked, no success is posted |
| RevokedLate.MaySucceedUnpermitted | apps/extension/src/background.ts:621-622 | a complete run in which a queued revocation runs after the permissions were read, and the request succeeds unpermitted |
| Revocations.StepOrdered | apps/extension/src/background.ts:340-357 | every event keeps the order of permissions and revocations: whatever a queued revocation precedes was captured before it |
| Revocations.RevocationsHold | apps/extension/src/background.ts:340-357 | over the whole history, restarts included: a permission captured before a revocation of its site is there exactly while that revocation is queued, unless a restart forgot it; so an approval in flight never undoes a revocation |
| Revocations.RestartPermissions | apps/extension/src/background.ts:347-357 | after a restart a site is permitted iff it was, or its permission write was in flight and has landed |
| Revocations.UndoneByRestartExactly | apps/extension/src/background.ts:1502-1516 | in every run, a permission there after a restart, kept or just landed, was captured before a revocation of its site iff that revocation was queued at the restart, and then the revocation is lost |
| Revocations.RestartMayPermit | apps/extension/src/background.ts:347-357 | a complete run in which a site revoked while its permission is being written is permitted after a restart and not before |
| LateWrites.MayDifferExactly | apps/extension/src/background.ts:1604-1613 | past its last check, a request can succeed with other settings stored than it read iff others are stored already or an earlier write of others is in flight |
| LateWrites.InFlightWriteMayLand | apps/extension/src/background.ts:226-240 | a complete run in which a settings write begun before the capture lands between the last check and the success |
| WalletProtection.StepKeeps | apps/extension/src/background.ts:178-195 | every event, including a failure or restart at any await, keeps the stores' invariant |
| WalletProtection.CrashSafe | apps/extension/src/background.ts:1232-1265 | in every run every account ever stored is in one store, and an unlocked session outside device mode means the device store is empty |
| WalletProtection.DeletedOnlyWhenEncrypted | apps/extension/src/background.ts:187-195 | the device copy disappears only while the encrypted vault holds the same accounts |
| WalletProtection.VaultOnlyGrows | apps/extension/src/background.ts:1191-1231 | a password vault, once there, stays, and no step takes an account out of it |
| WalletProtection.WritingKeeps | apps/extension/src/device-vault.ts:16-51 | landing a first, edited, protected or created wallet keeps the invariant, whatever other threads are doing |
| WalletProtection.ProtectCompletes | apps/extension/src/background.ts:1247-1266 | protecting, undisturbed, moves the starting wallet whole from the device to the vault, shows it and advances the revision |
| WalletProtection.EditCompletesInDevice | apps/extension/src/background.ts:1191-1231 | an edit of a starting wallet leaves the old accounts and the new ones in the device store, and shows them |
| WalletProtection.EditCompletesInVault | apps/extension/src/background.ts:1191-1231 | an edit of a protected wallet leaves the old accounts and the new ones in the vault, and shows them |
| WalletProtection.ImportCompletes | apps/extension/src/background.ts:1368-1390 | an import leaves the old accounts and the imported ones in the vault, and shows them |
| WalletProtection.OpenCompletes | apps/extension/src/background.ts:1232-1246 | opening without a vault shows the device wallet, or stores and shows the one created |
| WalletProtection.CreateCompletes | apps/extension/src/background.ts:1341-1366 | creating a vault where there is no wallet stores what was created and shows it |
| WalletProtection.UnlockCompletes | apps/extension/src/background.ts:293-310 | an unlock that is not disturbed shows what the vault holds |
| WalletProtection.ProbeCompletes | apps/extension/src/background.ts:178-195 | a probe that is not disturbed finishes an interrupted protection and shows nothing |
| WalletProtection.LockHolds | apps/extension/src/background.ts:269-280 | in every run, a locked wallet stays locked until another action is started, whatever those under way still do |
| WalletProtection.LockStopsWrites | apps/extension/src/background.ts:1252-1256 | in every run, after a lock no protecting, editing or creating write begins until another action is started |
| WalletProtection.BumpHolds | apps/extension/src/background.ts:1232-1246 | in every run, once the revision has advanced, nothing that was under way opens, creates or unlocks a wallet |
| WalletProtection.FailureExactly | apps/extension/src/background.ts:187-195 | a failing cleanup locks the wallet; any other failure leaves the session, and neither changes a store |
| CoinSelection.FetchConfirmedUtxos | crates/bitcoin-services/src/lib.rs:560-565 | the coins are confirmed ones, largest first, at most 200 |
| CoinSelection.SortedByValueSorts | crates/bitcoin-services/src/lib.rs:561-561 | the sort orders by falling value and loses or invents no coin |
| CoinSelection.SortedByValueStable | crates/bitcoin-services/src/lib.rs:561-561 | coins of one value stay in the order they came in |
| CoinSelection.ConfirmedExactly | crates/bitcoin-services/src/lib.rs:560-560 | the confirmed coins are kept, as often as they came, and no others |
| CoinSelection.LargestAreBest | crates/bitcoin-services/src/lib.rs:560-564 | no choice of coins is worth more than as many of the largest |
| BitcoinTransfer.FeeExact | crates/bitcoin-services/src/lib.rs:596-656 | the checked arithmetic yields exactly rate times size, and refuses exactly fees above 1,000,000 sats |
| BitcoinTransfer.SelectCoins | crates/bitcoin-services/src/lib.rs:703-750 | stops at the first count of coins that covers the payment, runs out only when no count does, and fails only at an arithmetic or fee limit |
| BitcoinTransfer.BuildPsbt | crates/bitcoin-services/src/lib.rs:673-817 | a built PSBT spends the first coins, each by its own transaction id, output number, value and script, to the recipient and back; success, refusal and insufficient funds each occur iff their condition on the coins holds |
| BitcoinTransfer.DistinctSpent | crates/bitcoin-services/src/lib.rs:757-771 | every input spends the output its coin is, so distinct outputs supplied are distinct outputs spent |
| BitcoinTransfer.RefusedThoughCovered | crates/bitcoin-services/src/lib.rs:734-756 | 56 coins that cover a payment within every limit, but leave no change and more than the largest fee |
| BitcoinTransfer.SelectionMinimal | crates/bitcoin-services/src/lib.rs:703-747 | no set of fewer of the supplied coins covers the amount and its own one-output fee |
| BitcoinTransfer.SelectionMinimalOverAll | crates/bitcoin-services/src/lib.rs:560-564 | nor does any set of fewer of all the account's confirmed coins, truncated away or not |
| BitcoinTransfer.InsufficientMeansNone | crates/bitcoin-services/src/lib.rs:748-750 | insufficient funds means no set at all of the supplied coins covers the payment |
| BitcoinTransfer.Overpayment | crates/bitcoin-services/src/lib.rs:722-746 | change is nothing or not dust, and the fee overpays by less than a change output and dust |
| BitcoinTransfer.PreparedConserves | crates/bitcoin-services/src/lib.rs:757-816 | inputs equal amount, fee and change; the fee covers the size of the actual outputs, is within the limit, and is exact when there is change |
| BitcoinTransfer.CheckInputs | crates/bitcoin-services/src/lib.rs:1062-1076 | accepts exactly inputs with a coin of the sender's and a total that fits, and returns that total |
| BitcoinTransfer.CheckOutputs | crates/bitcoin-services/src/lib.rs:1077-1098 | finds the payment exactly when one output pays the recipient and all others return to the sender |
| BitcoinTransfer.ValidatePreparedPsbt | crates/bitcoin-services/src/lib.rs:1051-1108 | accepts exactly the acceptable PSBTs, described without the fold |
| BitcoinTransfer.PreparedAcceptable | crates/bitcoin-services/src/lib.rs:1051-1108 | the validator accepts every transfer the builder makes from at most 200 coins |
| BitcoinTransfer.SenderLosesExactly | crates/bitcoin-services/src/lib.rs:1077-1106 | of any accepted PSBT, the sender loses exactly amount and fee, or only the fee when paying itself |
| Base58.AlphabetAscends | apps/extension/src/inpage.ts:90-90 | the 58 symbols are digits and letters but for the four that are easily mistaken, in the order of their codes |
| Base58.AlphabetCovers | apps/extension/src/inpage.ts:90-90 | every other digit and letter is a symbol |
| Base58.ReadNumber | apps/extension/src/inpage.ts:90-96 | fails exactly on a character outside the alphabet, and otherwise returns the base-58 value |
| Base58.BigEndianBytes | apps/extension/src/inpage.ts:97-101 | the bytes are the base-256 digits of the number, most significant first |
| Base58.OnesAreZeros | apps/extension/src/inpage.ts:102-102 | the leading `1`s are the leading zero digits |
| Base58.Base58ToBytes | apps/extension/src/inpage.ts:89-104 | succeeds exactly on texts over the alphabet, and the result encodes back to the text |
| Base58.DecodeThenEncode | apps/extension/src/inpage.ts:89-104 | encoding what any valid text decodes to gives the text, leading `1`s included |
| Base58.EncodeThenDecode | apps/extension/src/inpage.ts:89-104 | decoding the encoding of any byte string gives the bytes, leading zeros included |
| TokenBalances.SolanaTokenAssets | apps/extension/src/background.ts:759-792 | a mint is shown iff it has a valid account, with the total over all of them, the last one's precision and the printed balance |
| TokenBalances.FormatReadsBack | apps/extension/src/background.ts:794-800 | a decimal parser reads back exactly the raw amount, for every digit string and precision |
| TokenBalances.FormatCanonical | apps/extension/src/background.ts:794-800 | the printed form has no superfluous zero in front and none behind the point |
| TokenBalances.FormatInjective | apps/extension/src/background.ts:794-800 | for a fixed precision, different canonical amounts print differently |
| RequestGuard.ApprovalRequestGuard.AssertAllowed | apps/extension/src/provider-security.ts:69-94 | decides as a guard with the complete admission history would, and records an admission exactly when it allows one, in a store that keeps, above 100 sites, only those with an entry that matters |
| RequestGuard.ApprovalRequestGuard.Prune | apps/extension/src/provider-security.ts:89-93 | deletes exactly the origins whose entries are all too old, keeping every later decision the same |
| RequestGuard.ApprovalRequestGuard.CountPending | apps/extension/src/provider-security.ts:77-78 | counts the pending requests of the origin |
| RequestGuard.FilteredAgrees | apps/extension/src/provider-security.ts:81-82 | filtering the stored list and the complete history gives the same recent entries |
| RequestGuard.AdmissionSpaced | apps/extension/src/provider-security.ts:83-88 | admitting below the limit keeps eleven admissions in a row a minute apart and at most ten stored |
| RequestGuard.RunSpacedOut | apps/extension/src/provider-security.ts:69-94 | in any run, any eleven consecutive admissions of one origin span at least 60,000 ms |
| KdfLimiting.KdfLimiter.Acquire | crates/core/src/lib.rs:217-234 | a thread gets a permit iff fewer than two are held, barging or not, and sleeps otherwise; no wake-up is lost |
| KdfLimiting.KdfLimiter.Recheck | crates/core/src/lib.rs:226-232 | a woken thread takes a free permit or sleeps again; no wake-up is lost |
| KdfLimiting.KdfLimiter.WakeSpuriously | crates/core/src/lib.rs:227-230 | spurious wake-ups keep the invariant |
| KdfLimiting.KdfLimiter.Drop | crates/core/src/lib.rs:236-243 | the counter stays the number of live permits, and one waiter, if there is one, is woken |
| TypedDataShape.TypedFieldChecker.Visit | apps/extension/src/transaction-security.ts:215-230 | accepts exactly the conforming values within the depth and the remaining budget, and spends one unit per node |
| TypedDataShape.ValidateTypedFields | apps/extension/src/transaction-security.ts:213-232 | accepts iff every object has exactly its signed fields, every array its length, depth is at most 32 and nodes at most 4096 |
| TypedDataShape.ConformsExactly | apps/extension/src/transaction-security.ts:217-229 | a value conforms iff, at every level, an array has its length, a struct exactly its fields, and their parts conform |
| TypedDataShape.LookupExactly | apps/extension/src/transaction-security.ts:228-228 | a field is checked by the value of the first member with its name |
| TypedDataShape.ParseExactly | apps/extension/src/transaction-security.ts:217-217 | a type name is an array type iff it spells an element type without line breaks and a length in digits between brackets |
| TypedDataShape.ArrayTypesParse | apps/extension/src/transaction-security.ts:217-218 | `T[n]` is parsed as `T` with length `n`, and `T[]` as `T` with any length |
| TypedDataShape.AcceptedObjectsExact | apps/extension/src/transaction-security.ts:221-228 | an accepted object has the schema's field names, no more and no fewer, and every field conforms in turn |
| TypedDataShape.AcceptedArraysExact | apps/extension/src/transaction-security.ts:217-220 | an accepted array has its declared length and every member conforms |
| TypedDataShape.ChildrenSmaller | apps/extension/src/transaction-security.ts:220-228 | every part visited is smaller than the value, so the check terminates on recursive types |
| SafeProposals.VerifySignatures | apps/extension/src/safe.ts:64-76 | succeeds iff the hash is that of the terms, every signature recovers to the owner of its entry, who is in the list, and no owner occurs twice; keeps exactly those entries, owners in lower case and ascending in their characters |
| SafeProposals.KeptIsSigned | apps/extension/src/safe.ts:70-73 | whatever is kept stands for an entry of that owner whose signature recovers to the owner and has exactly the kept text |
| SafeProposals.BeforeExactly | apps/extension/src/safe.ts:74-74 | owners are ordered at the first character that differs |
| SafeProposals.LowerExactly | apps/extension/src/safe.ts:65-72 | two texts are equal in lower case iff they differ in the case of letters only |
| SafeProposals.FormatExactly | apps/extension/src/safe.ts:28-36 | a proposal passes the format check iff its terms do, hash, owners and signatures are hexadecimal of their lengths, and it has at most 50 signatures |
| SafeMerge.MergeProposals | apps/extension/src/safe.ts:105-115 | returns what the specification says: an error for a bad format, a different proposal or a conflict, else the first proposal with the merged signatures |
| SafeMerge.MergeIsUnion | apps/extension/src/safe.ts:108-113 | the loop succeeds iff no owner has two different signatures, in one list or over both, and the result is the union of the two signature maps |
| SafeMerge.MergeIdempotent | apps/extension/src/safe.ts:105-115 | merging a well-formed proposal with itself gives it back, order included |
| SafeMerge.MergeCommutative | apps/extension/src/safe.ts:105-115 | either order succeeds or neither, checks included, with the same proposal and signatures |
| SafeMerge.MergedWellFormed | apps/extension/src/safe.ts:32-35 | a merge's result passes the format check again iff at most 50 owners have signed |
| SafeMerge.GroupingsAgreeExactly | apps/extension/src/safe.ts:105-115 | when the two groupings of three merges both succeed or both fail, and that both give the same signatures |
| SafeMerge.GroupingMatters | apps/extension/src/safe.ts:32-35 | 30, 30 and 1 signers: one grouping fails and the other succeeds |
| SafeMerge.VerifiedSigners | apps/extension/src/safe.ts:61-72 | proposals verified against one owner list together have at most as many signers as the list |
| SafeMerge.MergeAssociative | apps/extension/src/safe.ts:105-115 | for proposals verified against one list of at most 50 owners, either grouping succeeds or neither, with the same signatures |
| SafeMerge.VerifiedDistinct | apps/extension/src/safe.ts:64-76 | verified proposals have distinct owners, so the merge laws apply to them |
| SafeProposals.SignProposal | apps/extension/src/safe.ts:97-104 | succeeds iff the owner has not signed and the signature checks out, keeps every earlier entry, adds exactly this one, and the proposal verifies again |
| SafeProposals.ExecutionBlob | apps/extension/src/safe.ts:119-120 | succeeds iff the threshold is reached, with the first `threshold` signatures joined |
| SafeProposals.BlobSigners | apps/extension/src/safe.ts:119-120 | after verification the blob is `threshold` signatures of 65 bytes, each by the owner it recovers to, by current owners strictly ascending in their characters |
| SafeImport.MergeVerifies | apps/extension/src/safe.ts:105-115 | a merge into a verified proposal succeeds iff the two are one proposal without conflicts; verification accepts the result iff it accepts the other proposal, repeated entries aside, and the signers are those of both |
| SafeImport.MergeOfVerified | apps/extension/src/safe.ts:64-76 | a successful merge of two proposals verified against one list of at most 50 owners passes the format check and verification; its signers are the union |
| SafeImport.ValidateProposal | apps/extension/src/safe.ts:77-88 | succeeds iff the format and the signatures are in order, with the same signers, and the result passes the format check again |
| SafeImport.ImportProposal | apps/extension/src/background.ts:1174-1184 | an import into a verified version succeeds iff the two can be merged and verification accepts the import, repeated entries aside; the result is verified and its signers are the union |
| SafeImport.PrepareExecution | apps/extension/src/safe.ts:116-120 | succeeds iff the proposal validates and the threshold is reached, with the first `threshold` signatures of a verified proposal by the same owners |
| SafeImport.ExecuteImported | apps/extension/src/safe.ts:105-120 | after an import, execution gets its signatures iff the owners who signed either version reach the threshold together |
| ClipboardCleanup.SecretsAreCleaned | apps/extension/src/secret-clipboard.ts:14-41 | in every run a held secret has a timer or a queued or running clear, the third failed clear drops it, and only a clipboard just read as the secret is overwritten |
| ClipboardCleanup.ClipboardExactly | apps/extension/src/secret-clipboard.ts:18-31 | the clipboard changes only when others copy, when a copy writes its value, and when a clear empties it |
| ClipboardCleanup.QuietMeansWiped | apps/extension/src/secret-clipboard.ts:14-41 | in a run without others and without failures, the clipboard ends up with its first text or empty |
| ClipboardCleanup.CopiedThenWiped | apps/extension/src/secret-clipboard.ts:14-41 | from a quiet state, a copied value is held and on the clipboard, and gone from both after the timer fires |
| ClipboardCleanup.FirstCopyIsWiped | apps/extension/src/secret-clipboard.ts:4-41 | the first secret copied leaves everything as it was, the clipboard empty |
| ClipboardCleanup.FailuresExactly | apps/extension/src/secret-clipboard.ts:34-39 | a failing copy changes nothing; a failing clear tries again, and the third in a row gives the secret up |
| ClipboardCleanup.QuietMeansForgotten | apps/extension/src/secret-clipboard.ts:25-40 | with nothing running, queued or armed, no secret is held |
| PasskeyRelay.StepKeeps | apps/extension/src/passkey-broker.ts:11-83 | every event keeps the relay's invariant |
| PasskeyRelay.RelayIsExact | apps/extension/src/passkey-broker.ts:5-84 | in every run at most eight flows live, each answers at most once and is gone then, one page at most gets its request, and a result answers exactly a good message of that page in the flow's window |
| PasskeyRelay.AnsweredExactly | apps/extension/src/passkey-broker.ts:11-83 | a live flow is answered exactly by what cancels it and by what its own page says |
| PasskeyRelay.FlowCompletes | apps/extension/src/passkey-broker.ts:28-74 | a caller whose window opens and whose page connects from it and answers gets that page's result |
| VaultModel.ValidateVaultPayload | apps/extension/src/vault.ts:179-227 | accepts exactly the valid payloads, described without the id sets |
| VaultModel.GroupedVault | apps/extension/src/vault.ts:477-508 | returns the grouped payload, or fails exactly on an invalid grouped payload or an unmatched recovery phrase |
| VaultModel.GroupingExact | apps/extension/src/vault.ts:477-508 | grouping keeps every account but for its wallet, partitions them into non-empty wallets, and puts exactly the recoverable ones under the phrase |
| VaultLegacy.LegacyClosed | apps/extension/src/vault.ts:503-505 | the loop's wallets are the phrase's, if it recovers an account, and then one for each account it does not recover, in order, with that account's name |
| VaultLegacy.LegacyValidExactly | apps/extension/src/vault.ts:179-227 | with any names given to its wallets, what grouping makes of a payload without wallets is valid iff validation finds every recoverable account under the phrase and the names fit |
| VaultLegacy.GroupedValidExactly | apps/extension/src/vault.ts:477-508 | what grouping gives is valid iff the payload had wallets, or is in order, with every recoverable account passing validation under the phrase and no blank account name on a wallet |
| VaultLegacy.RenamedValidExactly | apps/extension/src/vault.ts:542-543 | after a rename it is valid iff the same holds, the renamed wallet's blank name aside |
| VaultLegacy.BlankNameUnsound | apps/extension/src/vault.ts:505-505 | a valid payload whose second account has a blank name, and whose grouped form is not valid |
| VaultLegacy.OtherPathUnsound | apps/extension/src/vault.ts:483-483 | a valid payload whose account is recovered by its key but not by its recorded path, and whose grouped form is not valid |
| VaultMerge.Additions | apps/extension/src/vault.ts:517-519 | a wallet's additions are its missing accounts, each once, in order, under the next new ids |
| VaultMerge.AdditionsExact | apps/extension/src/vault.ts:517-519 | every addition is a missing account of the wallet, every missing one is added, and no duplicates arise |
| VaultMerge.MergeOneMerges | apps/extension/src/vault.ts:514-526 | one source wallet's turn extends the vault, covers the wallet, changes nothing if it was covered, and fails only when something is missing and the name is too long |
| VaultMerge.NamedGrows | apps/extension/src/vault.ts:522-524 | every added wallet is a source wallet with its phrase, under its own name only if the import has several wallets and the name was free |
| VaultMerge.MergeUpToMerges | apps/extension/src/vault.ts:514-526 | after any number of source wallets: old entries in place, copies placed under their phrases with new ids, the wallets so far covered, no new duplicates |
| VaultMerge.FirstSelected | apps/extension/src/vault.ts:525-525 | of the accounts missing of the first source wallet that lacks any, the first EVM account is selected, or else the first |
| VaultEdits.FinishedValid | apps/extension/src/vault.ts:179-227 | for a valid grouped vault, the final validation rejects the merged one only for its size, the names of the wallets added, or added accounts that do not match their phrase |
| VaultEdits.ValidSourceFits | apps/extension/src/vault.ts:514-526 | of what is added from a valid grouped import, the names fit and the accounts match their phrases |
| VaultEdits.MergeVaultAccounts | apps/extension/src/vault.ts:509-531 | a merge extends the grouped vault as above, is valid, and selects the first EVM account of the first additions, or else the first of them; for all payloads that can be grouped it succeeds iff the vault groups soundly, the name is free and short enough, something is missing, there is room, and what is added from an import that does not group soundly fits; "already imported" iff nothing is missing, so a second merge always fails |
| VaultEdits.MergeKeepsExisting | apps/extension/src/vault.ts:525-530 | old accounts and wallets are unchanged and in place; every other account is a source account's copy under a new id and the same phrase |
| VaultEdits.RenameVaultWallet | apps/extension/src/vault.ts:534-545 | renaming changes one wallet's name, to the trimmed one, and nothing else; each error occurs iff its cause does; it succeeds iff the name fits, the wallet exists, no other has the name, and the payload groups soundly with that wallet's old name aside |

## Left out

- RPC, HTTP, browser APIs, IndexedDB, the user interface and the command line: their answers are parameters or events.
- Cryptography and address derivation, including the Squads program-derived addresses: parameters, with no properties assumed.
- The asynchronous components (approval, protection, clipboard, passkey) are step functions on values, not classes: their methods are interleaved at every `await`, which one method contract cannot say.
- The serializer's `out` buffer is passed and returned as a value; the bytes written before a failure are discarded by the source too and are not modelled.
- Fee rates that are not whole numbers; the rate is rounded up to a whole number before it is used (crates/bitcoin-services/src/lib.rs:581-592).
- The rewriting of legacy vaults during `UNLOCK` in `WalletProtection`; unlocking is not one of the serialized actions.
- `WalletProtection` represents a payload by its set of accounts; names, selection and settings are not part of it.
- The caps on pending requests are part of a single guard call (`RequestGuard`), not of the interleaved approval machine, which inserts after an `await`.
- Permission scopes (account and network) in the approval machine: a permission is a site and the moment its request was captured; reading it is one storage operation.
- The chain id and factory checks at the start of discovery, and the on-chain inspection of a Safe, which is one of four outcomes here.
- The order of the token list and the names and symbols of its entries.
- Mutex poisoning in the KDF limiter.
- The sender and window-bounds checks of the passkey relay, which refuse a port before it takes part.
- Settings, network and token fields of a vault payload, and the type checks on data that is not of the declared type.
- DiscoveryRuns.CompletesExactly: assumes a provider that answers every range of at most 500 blocks and answers the same range alike every time, because nothing obliges a provider to answer.
- LateWrites.MayDifferExactly: leaves first-wallet writes out of the events, because they belong to setting up a wallet.
- SafeProposals.SignProposal: the exact success condition assumes that recovering from a canonical signature gives it back and that lower case leaves an address valid.
- SafeMerge.MergeProposals: does not model the limit of 400,000 characters, which no proposal within the other limits reaches, nor the checks of the proposal's terms, which are one parameter.
- VaultEdits.MergeVaultAccounts: the exact success condition assumes fresh ids within the id limit and proposed names that are neither blank nor too long, which is how the wallet makes them.
- VaultEdits.RenameVaultWallet: the exact success condition assumes that trimming is idempotent and does not lengthen.
- VaultModel.GroupedVault: decides account by account what the source decides by account id; they differ only on payloads with repeated ids, which validation rejects.
- SafeImport.ImportProposal: the exact condition is for a stored version that was verified against the current list of at most 50 owners; it assumes that recovery yields 65-byte signatures in hexadecimal and ignores the case of the hash.
- SafeImport.ValidateProposal: leaves out the checks of network, nonce and the contract's own hash of the proposal.
- SafeImport.PrepareExecution: leaves out the nonce check and the simulated call.
- The on-chain code checks that signing and validating a Safe proposal make.
- Fee preparation for Arc, balanced calldata inspection, CAIP ids, deep links, URL checks, price and portfolio sorting, TOTP and hardware fingerprinting: easy or foreign members.

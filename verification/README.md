# A verified model of a drivechain sidechain node

The project models the ledger of a BIP 300/301 sidechain node as one state machine and
proves what every run of it keeps. `dafny verify dfyconfig.toml` checks the whole project.

## What is modelled

| file | of the node |
|---|---|
| `Types.dfy`, `Values.dfy`, `Prelude.dfy` | outpoints, outputs, transactions, bodies, headers, bundles; the value of a table |
| `Bodies.dfy`, `Connection.dfy` | building a body, its inputs and outputs, connecting it to the UTXO table |
| `Authorizations.dfy` | the parallel batch check of a body's signatures |
| `Contents.dfy` | the amounts that outputs state, summed without their value functions |
| `Ownership.dfy` | who signed for what a block spends |
| `Validation.dfy`, `States.dfy` | validation and the consensus state (`class State`) |
| `Bundles.dfy`, `Pegs.dfy` | collecting a withdrawal bundle; deposits, statuses and the retry gap |
| `Drivechains.dfy` | the deposit scan and the bundle statuses |
| `Archives.dfy`, `MemPools.dfy` | the header/body archive (`class Archive`), the pool (`class MemPool`) |
| `Templates.dfy`, `Nodes.dfy` | the block template; `class Node`, whose calls commit whole or not at all |
| `Acceptance.dfy` | what makes a block acceptable, from its contents alone, and that nothing else refuses it |
| `Runs.dfy`, `Freshness.dfy`, `Supply.dfy`, `Lifecycle.dfy`, `Economy.dfy` | whole runs: outpoints, supply, bundles, archive, pool, and the escrow |
| `Wallets.dfy` | `class Wallet`: coin selection, addresses, signing |

A run (`Runs.IsRun`) is a sequence of machine states in which every step connects a block
(`Nodes.BlockStep`, which `Node.SubmitBlock` is proved to perform), admits a transaction to
the pool (`Node.SubmitTransaction`; it may have been validated on an earlier table) or prunes the pool (`Node.GetTransactions`). The machine carries
a history that records and is never consulted.

How the code is read:

- Hashes, addresses and signatures are an arbitrary record of total functions (`Crypto`).
  A fact that needs collision-freeness, or that no header hashes to zero, requires it by
  name. `Types.Ideal` shows that all these requirements can hold at once.
- Values are 64-bit and heights 32-bit. A sum or a height that would leave its width ends
  the call without success (`Overflow`), as does a slice or an assertion that panics
  (`Panicked`). `vout as u32` truncates.
- The order in which a hash map or a table is iterated is any order, and so is the order the
  sort of the aggregated withdrawals leaves, whose comparison is not a total order.
- A write transaction that is dropped restores every table.
- An environment input is anything: the mainchain's deposit list and bundle statuses, and
  the number of threads.

Where the code does other than one might expect, the code is modelled and the exact
condition is proved:

- Output ids can repeat: a body or a transaction without inputs can be connected twice
  (`Freshness.EmptyBlockRepeatsItsCoinbase`). An accepted block creates only new outpoints
  iff nothing without inputs repeats in it (`Freshness.FreshIffRepeatFree`). Whatever
  repeats is worthless (`Supply.NothingOfWorthIsCreatedTwice`), so the supply is exact
  without that condition (`Supply.SupplyEqualsDeposits`).
- The bundle loop's guard is `>`, so one output above the maximum gets in; and scripts longer
  than 23 bytes are too heavy below the maximum (`Bundles.LongScriptsAreTooHeavy`). A
  collection is too heavy iff paying the destinations it chose is, by the length of each
  one's script: all of them up to one above the maximum
  (`Bundles.TooHeavyIffDestinationsAre`), any of them beyond
  (`Bundles.TooHeavyIffChosenAre`, `Bundles.AnyChoiceIsPossible`).
- The signature check does not ask for an authorization for every input. So any output can
  be spent without one (`Ownership.UnsignedSpendIsAccepted`), and what an accepted block
  spends is all signed for iff it has as many authorizations as inputs
  (`Ownership.EveryInputIsSignedForIffCounted`). With more, the check panics
  (`Authorizations.VerifyBody`).
- For the same reason the node can make a template that its own validator refuses
  (`Templates.UnsignedShiftsTheNext`). A template is valid iff its authorizations line up:
  one an input, until a transaction with fewer, and none after it
  (`Templates.TemplateIsValid`).
- Deleting a transaction from the pool does not free its inputs
  (`MemPools.EveryPoolIsConflictFree`).
- Failed bundles are not filtered by sidechain (`Drivechains.GetWithdrawalBundleStatuses`).
- The mainchain fee of a withdrawal enlarges the coin selection but stays in the change
  (`Wallets.Wallet.CreateWithdrawal`).

Automatic induction is switched off on every lemma: each induction is written out.

## Model

| member | source | states |
|---|---|---|
| `Runs.SupplyNeverExceedsDeposits` | src/state.rs:251-375 | in every run, for any hash function, value in the table, in the pending bundle, in confirmed bundles and in unclaimed fees never exceeds the deposits credited |
| `Supply.SupplyEqualsDeposits` | src/state.rs:251-375 | in every run whose deposits are new and whose output indices fit in 32 bits, that account equals the deposits exactly, whatever its blocks repeat |
| `Supply.NothingOfWorthIsCreatedTwice` | src/state.rs:258-275 | an output worth something stands at an outpoint that nothing created before the block, nor anything else in it |
| `Supply.EveryRunIsSound` | src/state.rs:352-375 | nothing of worth that was spent is ever in the table or pending, nor in both at once |
| `Supply.StepConservesSupply` | src/node.rs:263-271 | one block keeps the account equal to the deposits: connection, deposits, collection, settlement |
| `Economy.SidechainAccountsForEscrow` | src/drivechain/mod.rs:64-111 | fed by incremental scans of one deposit list, the account equals one full scan, and with unparsable deposits and drops it comes to the escrow's last total |
| `Economy.FedRunIsUpToDate` | src/state.rs:303-308 | however many blocks share the scanning, the node has credited exactly the outpoints and value of one full scan, each once, and saved the same block |
| `Freshness.NoOutpointIsCreatedTwice` | src/state.rs:352-375 | in a fair run, what a block or a deposit creates was never created before, nor twice in the block |
| `Freshness.FreshIffRepeatFree` | src/types/types.rs:86-90 | with collision-free ids, an accepted body creates only new outpoints iff no input-less transaction or body repeats and indices fit in 32 bits |
| `Freshness.EmptyBlockRepeatsItsCoinbase` | src/state.rs:251-287 | a worthless coinbase on an empty block is always accepted, and connecting it again repeats its outpoint |
| `Freshness.DisciplinedIsRepeatFree` | src/types/types.rs:159-162 | inputs in every transaction and no coinbase without transactions suffice |
| `Freshness.EveryFairRunIsTidy` | src/state.rs:352-375 | spent outputs never reappear; pending outputs are withdrawals and out of the table |
| `Runs.StepKeepsTidy` | src/state.rs:296-375 | the invariant behind it, over one whole step: connection, deposits, collection, settlement |
| `Runs.StepKeepsSupplyBound` | src/node.rs:263-271 | one block never raises the account above the deposits |
| `Runs.CollectingConservesValue` | src/state.rs:319-324 | collecting moves value from the table to the pending bundle, none gained or lost |
| `Supply.SettlingConservesValue` | src/state.rs:326-348 | settling the pending bundle gains and loses nothing, when nothing of worth is also in the table |
| `Connection.ConnectNeverCreatesValue` | src/state.rs:352-375 | for any hash function, connecting distinct inputs cannot raise the value beyond coinbase and outputs less inputs |
| `Connection.ConnectConservesValue` | src/state.rs:352-375 | when only what is worthless is overwritten it is exact |
| `Connection.ConnectedOutsideInputs` | src/state.rs:361-373 | away from the inputs, connecting adds the outputs to the table, whatever outpoints repeat |
| `Connection.ConnectIsSetForm` | src/types/types.rs:164-189 | interleaved deletes and puts come to the table minus all inputs plus all outputs, when the body spends nothing it creates |
| `Connection.ReorderingKeepsTable` | src/state.rs:361-373 | reordering transactions changes the table at coinbase outpoints only |
| `States.State.ConnectBody` | src/state.rs:352-375 | the loops of puts and deletes give exactly the connected table |
| `Bodies.NewBody` | src/types/types.rs:137-157 | the body holds all transactions and all authorizations, in order |
| `Bodies.GetInputs` | src/types/types.rs:164-170 | all inputs, transaction by transaction |
| `Bodies.GetOutputs` | src/types/types.rs:172-189 | the table of all outputs by outpoint, later entries over earlier ones |
| `Supply.MadeInPlainTerms` | src/types/types.rs:172-189 | that table holds each output at its index under its transaction's id or the body's root, and nothing else |
| `States.State.FillTransaction` | src/state.rs:68-85 | the spent outputs in input order, or an input that has none |
| `States.ValidateFilledTransaction` | src/state.rs:233-249 | the fee by the amounts that inputs and outputs state; fails iff more goes out than in or a sum leaves 64 bits |
| `States.State.TotalFees` | src/state.rs:256-271 | succeeds iff no input repeats, every transaction balances and the sum fits; what is wrong otherwise |
| `States.State.ValidateBody` | src/state.rs:251-287 | accepts exactly the acceptable bodies, returns the amounts in less the amounts out, and every error names what is wrong |
| `Acceptance.AcceptedIffAcceptable` | src/state.rs:251-287 | accepted iff, transaction by transaction, every input is in the table, no two are the same, amounts out are covered, the coinbase is covered by what is paid, and each authorization is by the holder of the input at its position |
| `Acceptance.ErrorsMean` | src/state.rs:258-284 | each error a refused body gets says, of its inputs, amounts, keys and signatures, what is wrong |
| `Contents.AmountsAreValue` | src/types/types.rs:70-80 | the value of outputs is the sum of the amounts their contents state |
| `Authorizations.Packages` | src/authorization.rs:92-123 | the packages joined in order are exactly the authorization/message pairs; panics iff there are more authorizations than inputs |
| `Authorizations.VerifyBody` | src/authorization.rs:73-135 | for any number of threads, the parallel check accepts exactly what one pass over all pairs accepts |
| `Authorizations.BodyVerifiesIffTransactionsDo` | src/authorization.rs:52-71 | where the authorizations line up with the inputs, a body verifies iff each of its transactions does |
| `Authorizations.VerifyAuthorizedTransaction` | src/authorization.rs:52-71 | accepts iff every authorization verifies on the transaction |
| `Ownership.UnsignedSpendIsAccepted` | src/state.rs:275-285 | in any table, a block without authorizations that spends any output to anyone is accepted |
| `Ownership.EveryInputIsSignedForIffCounted` | src/state.rs:275-285 | in an accepted block, every input is signed for at its position by its owner iff there are as many authorizations as inputs |
| `Ownership.OwnerSignedTheTransaction` | src/authorization.rs:73-135 | then the owner of each output that a transaction spends signed that transaction |
| `Ownership.TransactionIsSignedForIffEnough` | src/node.rs:100-129 | each input of an accepted transaction is signed for iff there are enough authorizations |
| `Bundles.Aggregate` | src/state.rs:102-132 | one aggregate a destination: all its withdrawals, their sum, their largest fee; fails iff a sum overflows |
| `Bundles.ChooseOutputs` | src/state.rs:139-153 | the payouts, spent outputs and fee of the destinations the guard lets in |
| `Bundles.CollectBundle` | src/state.rs:87-224 | the result is one that some order of destinations and inputs gives |
| `Bundles.BundleAccounting` | src/state.rs:104-153 | whatever the order: spent outputs are all withdrawals to the chosen destinations, each is paid its sum, payouts total what is spent, and the fee is the sum of largest fees |
| `Bundles.BundleInPlainTerms` | src/state.rs:102-199 | the whole transaction from what the withdrawals state: whom it pays, the amounts withdrawn to each, the sum of the largest fees, the commitment to inputs and height, and which outputs it spends |
| `Bundles.EqualScripts` | src/state.rs:93-100 | with scripts of one length, too heavy iff this many bytes exceed 400000 weight units |
| `Bundles.MaxFeeIsMaximum` | src/state.rs:126-129 | the fee kept for a destination is the largest offered |
| `Bundles.BundleSpendsWithdrawals` | src/state.rs:110-131 | a bundle takes withdrawals out of the table, at least one, and nothing else |
| `Bundles.WeightOfBundle` | src/state.rs:93-100 | the weight is the constant for no outputs, plus the payouts, plus the longer output count |
| `Bundles.SmallBundleFits` | src/state.rs:214-219 | up to 3121 destinations with scripts of at most 23 bytes are never too heavy |
| `Bundles.TooHeavyIffDestinationsAre` | src/state.rs:214-219 | with any scripts, up to one destination above the maximum: collection is too heavy iff paying all destinations is |
| `Bundles.TooHeavyIffChosenAre` | src/state.rs:142-219 | for any number of destinations, collection is too heavy iff paying those it chose is, and reports their weight |
| `Bundles.AnyChoiceIsPossible` | src/state.rs:138-145 | every choice of as many destinations as get in is one that some order makes; it overflows iff its fees do and is too heavy iff its weight is |
| `Bundles.ManyDestinations` | src/state.rs:142-145 | above the maximum, scripts of at most 22 bytes always fit and scripts of at least 23 never do |
| `Bundles.LongScriptsAreTooHeavy` | src/state.rs:93-100 | 2938 destinations with scripts of 25 bytes are below the maximum and too heavy |
| `Bundles.BundleRespectsWeight` | src/state.rs:214-219 | every bundle returned respects the limit |
| `Bundles.BundlesOfDifferentHeights` | src/state.rs:181-199 | commitments to different heights give different transaction ids |
| `Pegs.StatusOrderIsIrrelevant` | src/state.rs:326-348 | whatever order the statuses come in, only the pending bundle's own one counts |
| `Pegs.FailureUndoesCollection` | src/state.rs:332-342 | a failure right after collection restores the ledger but for the recorded height |
| `States.State.WithdrawBundle` | src/state.rs:311-325 | collects when the gap has passed and nothing is pending, and moves the bundle out of the table |
| `States.State.SettleStatuses` | src/state.rs:326-348 | the loop over statuses in any order settles as the set of statuses says |
| `States.State.ConnectTwoWayPegData` | src/state.rs:296-350 | a peg step: deposits, then collection, then statuses; or why it aborts |
| `Lifecycle.SettlementIsExact` | src/state.rs:310-348 | confirmation drops exactly the pending entries, failure restores exactly them, otherwise nothing changes |
| `Lifecycle.OriginOfPending` | src/state.rs:319-324 | a pending bundle was collected at one step and has been pending since |
| `Lifecycle.FailureRestoresWhatWasTaken` | src/state.rs:339-341 | over a run, a failure gives back the very entries collection took, which the table has not held since |
| `Lifecycle.DifferentStepsDifferentTxids` | src/state.rs:181-199 | no two steps of a run collect bundles with the same id |
| `Lifecycle.StaleStatusesSettleNothing` | src/state.rs:326-330 | in every run a block's ledger is what it would be without the statuses of bundles already settled, whatever else is reported beside them |
| `Lifecycle.RetryGapIsKept` | src/state.rs:311-324 | in every run a block collects iff nothing is pending, its height is at least 5 and at least 5 above every failure, and the table holds a withdrawal; the subtraction never underflows |
| `Lifecycle.CollectsIffDue` | src/state.rs:311-319 | the same for one step, by the recorded failure |
| `Lifecycle.LedgerAfterBlock` | src/state.rs:303-348 | after a block the table is the connected one with the deposits as listed, less what is collected, plus what a failure puts back; and what is pending, the failure height and the last deposit block |
| `Drivechains.GetDepositOutputs` | src/drivechain/mod.rs:64-111 | the loop computes the scan |
| `Drivechains.ScanCreditsRises` | src/drivechain/mod.rs:76-109 | an entry is credited iff it rises, lies outside the start block and has a destination, and with its own rise |
| `Drivechains.ScanInPlainTerms` | src/drivechain/mod.rs:76-109 | the outputs are, at transaction and burn index, for the destination and worth the rise, those of the credited entries and no others |
| `Drivechains.SavedBlockInPlainTerms` | src/drivechain/mod.rs:80-91 | the saved block is that of the last entry outside the start block that did not fall |
| `Drivechains.RescanCompletes` | src/drivechain/mod.rs:73-110 | scanning a prefix, then from the saved block on, credits and saves what one scan does, even with falls in between |
| `Drivechains.RisesTelescope` | src/drivechain/mod.rs:74-97 | rises less drops come to the last total |
| `Drivechains.ScanValue` | src/drivechain/mod.rs:91-108 | a full scan credits the rises but for unparsable destinations |
| `Drivechains.GetWithdrawalBundleStatuses` | src/drivechain/mod.rs:113-126 | failed iff listed as failed; confirmed iff listed as spent for this sidechain and not as failed |
| `Archives.BigEndianKeepsOrder` | src/archive.rs:34-38 | big-endian keys are ordered as the heights they encode |
| `Archives.LastKey` | src/archive.rs:54-60 | the last key of a table is the numeric maximum |
| `Archives.Archive.GetBestHash` | src/archive.rs:46-52 | the hash of the header at the top, zero when there is none |
| `Archives.Archive.AppendHeader` | src/archive.rs:80-91 | appends iff the header names the best hash, and changes nothing otherwise |
| `Archives.Archive.PutBody` | src/archive.rs:62-78 | stores the whole body iff the root matches and the header is known, at its height |
| `Archives.EveryArchiveIsWellFormed` | src/archive.rs:54-91 | after any appends and stores: heights 1..n, linked by hash, index the exact inverse, bodies match their roots |
| `Archives.HashesAreDistinct` | src/archive.rs:80-91 | no header hash occurs at two heights |
| `Archives.BestHashBindsChain` | src/archive.rs:46-91 | equal best hashes mean equal heights, headers and body contents |
| `Archives.SyncExtendsIffPrefixAgrees` | src/node.rs:509-517 | the peer's header above our tip is appended iff we agree with the peer on every height below |
| `Lifecycle.EveryRunKeepsArchive` | src/node.rs:273-274 | in every run the archive is well-formed and every header has its body |
| `Lifecycle.ArchivedBlock` | src/node.rs:273-274 | at each height the archive holds the header and the body, authorizations included, of the block that raised the chain to it |
| `Lifecycle.EveryBlockIsArchived` | src/archive.rs:62-91 | and every block of the run is there |
| `Lifecycle.SameTipSameBlocks` | src/archive.rs:46-91 | two nodes that ran to the same best hash connected the same blocks |
| `MemPools.MemPool.Put` | src/mempool.rs:28-46 | admits iff inputs are distinct and unmarked; stores the transaction under its id and marks its inputs |
| `MemPools.MemPool.Delete` | src/mempool.rs:48-51 | removes the transaction and keeps its markers |
| `MemPools.MemPool.Take` | src/mempool.rs:53-64 | the asked number of entries at distinct keys, or all |
| `MemPools.EveryPoolIsConflictFree` | src/mempool.rs:28-51 | in every run inputs are distinct and disjoint, and an outpoint is marked iff something ever admitted spends it |
| `MemPools.PoolHoldsLastAdmitted` | src/mempool.rs:28-51 | after any run the pool holds under each id the transaction last admitted with it, unless deleted since, and nothing else |
| `MemPools.AdmitsIffAdmitting` | src/mempool.rs:37-42 | a put is admitted iff it spends nothing twice and nothing that was admitted before spends |
| `Lifecycle.EveryRunKeepsPool` | src/node.rs:131-140 | the same freedom from conflicts along every run of the node |
| `Lifecycle.PoolOfRun` | src/node.rs:131-140 | at any point of a run the pool holds under each id the transaction last admitted, unless a block included it or the template dropped it since |
| `Templates.NoDoubleSpendInPool` | src/node.rs:206-213 | the double-spend branch of the template is unreachable |
| `Templates.SelectedAreTheAccepted` | src/node.rs:206-236 | the template is exactly the valid transactions among those taken, and exactly the others leave the pool |
| `Templates.BodyAcceptedIffTransactionsAre` | src/state.rs:251-287 | where the authorizations line up, the validator accepts a body iff the node accepts each transaction, no input repeats and the coinbase is covered |
| `Templates.VerifiedIsLinedUp` | src/authorization.rs:73-135 | if no signature fits two messages, transactions that verify one by one verify in one body only if their authorizations line up |
| `Templates.TemplateIsValid` | src/node.rs:197-239 | a block of the template passes validation on the same state if its authorizations line up and the coinbase is covered, and, if no signature fits two messages, only then |
| `Templates.SignedTemplateIsValid` | src/node.rs:197-239 | with one authorization per input every template with a coinbase of at most the fee is valid |
| `Templates.UnsignedShiftsTheNext` | src/node.rs:197-239 | two transactions the node accepts, one unsigned, whose block its validator refuses |
| `Lifecycle.TemplateOfRunIsValid` | src/node.rs:197-239 | the same at every point of every run |
| `Nodes.Node.ValidateTransaction` | src/node.rs:100-129 | accepts exactly the acceptable transactions and returns their fee; errors name what is wrong |
| `Acceptance.TransactionAcceptedIff` | src/node.rs:100-129 | the node accepts a transaction iff its inputs are in the table, every signature verifies, each key matches its input's address and the amounts are covered |
| `Nodes.Node.SubmitTransaction` | src/node.rs:131-140 | admits iff acceptable and free of conflicts; otherwise nothing changes |
| `Nodes.Node.GetTransactions` | src/node.rs:197-239 | returns the selection and its total fee, and prunes the pool; on overflow nothing changes |
| `Nodes.Node.SubmitBlock` | src/node.rs:248-288 | commits whole, and then it is a block step; or changes nothing and says why |
| `Acceptance.FineBlockIsNotRefused` | src/node.rs:248-288 | a block that is acceptable, names the tip, has its body's root and leaves no bundle that must fail is never refused |
| `Wallets.SortByValue` | src/wallet.rs:111-115 | the outputs by rising value, equal ones in any order |
| `Wallets.Wallet.SelectCoins` | src/wallet.rs:109-133 | smallest coins first, no withdrawals, no more than it takes to exceed the value; succeeds iff what that comes to is enough and fits in 64 bits |
| `Wallets.AffordableIf` | src/wallet.rs:115-130 | however equal coins are ordered, what selection comes to is the sum of the smallest coins until the amount is exceeded |
| `Wallets.Wallet.CreateTransaction` | src/wallet.rs:87-107 | spends exactly the coins selection takes, pays the value and leaves exactly the fee; change goes to the address at the next index; succeeds iff it is affordable and an address can be had |
| `Wallets.Wallet.CreateWithdrawal` | src/wallet.rs:60-85 | spends the coins taken for value and both fees, withdraws the value and leaves exactly the fee; the mainchain fee stays in the change; succeeds iff it is affordable and two addresses can be had |
| `Wallets.Wallet.Authorize` | src/wallet.rs:183-209 | signs every input in order with its address's key, iff all are known |
| `Wallets.Wallet.GetNewAddress` | src/wallet.rs:211-226 | the next index's address, and both index tables stay in step |
| `Wallets.NodeAcceptsWalletTransaction` | src/node.rs:100-129 | a signed payment from the wallet's outputs is accepted by a node holding them, with exactly the requested fee |
| `Wallets.Wallet.Send` | src/wallet.rs:87-107 | creating and then signing a payment succeeds exactly when creating does, and every node holding the outputs accepts the result |
| `Wallets.Wallet.Withdraw` | src/wallet.rs:60-85 | the same for a withdrawal |
| `Types.Ideal` | src/types/hashes.rs:112-116 | the hypotheses on hashes and signatures can all hold at once |

## Left out

- Networking, peers and heartbeats: only the sync decision is kept, as the request for the height above the tip.
- The mainchain RPC client, blind merge mining and the miner: deposit lists and statuses are environment inputs, already decoded, so decoding errors are not modelled.
- Broadcasting the bundle after a block: its outcome is ignored by the node.
- The custom sidechain state: its checks accept and its connection leaves the core tables alone; custom content is kept with the value it reports.
- Cryptography and encodings: functions with stated assumptions; a batch verification is the conjunction of its members.
- Key derivation: any function of seed and index; derivation errors are not modelled.
- Storage errors of the database.
- The order of aggregated withdrawals, and escrow coverage of mainchain fees: the code does not decide them.
- Reorganisations: the repository lists them as still to do.
- Getters that only read a table, balances, and display.
- Nodes.Node.SubmitBlock: the state read for the last deposit block and the write transaction are one moment here; the peg data is an argument.
- Archives.Archive: a body may be stored again under a known header; authorizations are not covered by the root, so equal chains may hold different ones.
- Economy.SidechainAccountsForEscrow: assumes that the mainchain lists each block's deposits together, that a scan ends at a block boundary and never before an earlier one, and that no deposit outpoint repeats.
- Templates.TemplateIsValid: that only templates that line up are valid rests on the assumption that no signature fits two messages.
- Supply.SupplyEqualsDeposits: assumes that a block's coinbase and each transaction have at most 2^32 outputs, beyond which the index is truncated.
- Wallets.Wallet.Send: creates and signs in one call, which the repository leaves to the wallet's caller; it assumes that the wallet holds only outputs of its own addresses.

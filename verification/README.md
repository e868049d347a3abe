# Obol ledger: a verified model

This project models the core of the Obol node and proves what its parts guarantee together:
the UTXO ledger with escrow and ZKCP contracts (`internal/core`), the block download of the
peer-to-peer server (`internal/network`), the budget firewall in front of an agent's wallet
(`internal/firewall`, `internal/mcp`), and the escrow index behind the dashboard
(`internal/indexer`).

The primitives the ledger treats as black boxes are fields of one record, `Ledger.Suite`:
SHA-256, Hash160, the gob encoding of a transaction, ECDSA key derivation, signing and
verification, and the proof-of-authority check. Every theorem is for all suites. The only law
assumed of one, where it is needed, is that a signature verifies under its own key. No hash is
assumed injective; a conclusion that depends on hashes is "equal, or here are two strings,
hashed by the program itself, that collide".

Conventions: a nil and an empty byte slice are both `[]`; a map keyed by a hex string is keyed
by the bytes; a Go panic is an outcome of its own (`Crashed`, `Panicked`, `MineCrash`,
`AddCrash`); 64-bit sums wrap explicitly through `Prelude.Wrap64`; clocks, random nonces, map
iteration order and context cancellation are parameters or arbitrary choices.

## What the files hold

| file | content |
|---|---|
| `Prelude`, `Numerals`, `Ledger` | bytes, 64-bit wrap-around, positional numerals, the records |
| `Base58`, `Wallets` | the address codec |
| `Merkle`, `ProofOfWork` | Merkle root, target, mining, difficulty |
| `Transactions`, `Signing`, `Limits` | Verify, Sign, settlement, size and value limits |
| `Utxo`, `UtxoUpdate`, `UtxoBlock` | FindUTXO's pass, Update, and when they agree |
| `Chain`, `MinedChain`, `Conservation` | the chain as a state machine, mining runs, value |
| `KeptIndex` | the index kept by Update alone over a whole run |
| `Node` | Storage, Blockchain and UTXOSet as objects |
| `CoinSelection`, `Builders`, `Spending` | coin selection and the transaction builders |
| `Sync`, `MiningLoop`, `Network` | block download, the mempool and the mining loop |
| `Firewall`, `FirewallLimits` | budgets, and where they end |
| `FirewallInterleaving`, `FirewallRoom` | interleaved calls, and the room they need |
| `EscrowIndex`, `EscrowRuns`, `EscrowSettlers`, `Indexer` | the escrow table as a fold over blocks, and against the ledger |

## Where the code falls short of a promise

Each of these is kept as the code has it, with a lemma that exhibits the failure and a lemma that
gives the exact condition under which the promise holds.

- `UTXOSet.Update` removes by list position, but the stored lists are compacted, and it stores an
  entry for a transaction without outputs. It leaves the index a rebuild would store whenever every
  transaction has outputs and they are spent highest index first. Outputs are necessary, and so is
  the order where no transaction has two equal outputs; equal outputs can hide a wrong order
  (`UtxoUpdate.LowestFirstKeepsSpentOutput`, `UtxoUpdate.EqualOutputsHideOrder`,
  `UtxoBlock.UpdateMatchesReindex`). The same holds of an index that Update alone has kept since
  genesis (`KeptIndex.IndexKeptByUpdate`).
- Coin selection names an output by its position in the stored list. That is its index exactly
  when nothing at or below it has been spent (`Spending.SpentFirstShiftsAll`,
  `Spending.PositionIsTrueIndex`). Otherwise a payment can name an output that is already spent,
  and Verify accepts it if that output is worth enough (`Spending.ShiftedPaymentNamesSpentOutput`).
- Coin selection skips escrow outputs but not ZKCP outputs. The transaction built is accepted
  exactly when no chosen output needs a witness (`Spending.ZkcpIsSelectedAndRejected`,
  `Spending.SpendAccepted`).
- The Merkle tree's rehash rule is documented as preventing two data lists from sharing a root.
  It does so exactly when no datum is 32 or 64 bytes long (`Merkle.PaddingAsDatum`,
  `Merkle.PairAsDatum`, `Merkle.BindingExact`).
- `Transaction.Verify` sums in 64 bits. Its inflation test is exact for all totals within two
  bounds exactly when both bounds are below 2^63, which the gRPC limits ensure
  (`Limits.UnlimitedSumsWrap`, `Limits.InflationTestExact`, `Limits.LimitsKeepSumsExact`). Without
  them one mined block can take the supply above everything issued
  (`Conservation.OneBlockMintsValue`).
- Difficulty retargeting is guarded twice, by conditions that never hold together, so difficulty
  never changes (`Chain.RetargetNeverFires`, `Chain.DifficultyNeverChanges`).
- Iteration over the chain ends exactly when no hash repeats along it. `AddBlock` admits a block
  recorded under its parent's hash, after which it does not. From a new block iteration ends exactly
  when it ends from the parent without meeting the block's own hash (`Chain.AdmittedLoop`,
  `Chain.WalkEndsExactly`, `Chain.NewBlockEndsExactly`).
- Block download is meant to bring a node level with a peer. `AddBlock` does not look for parents, so
  stores have gaps. A node ends with the peer's chain and index exactly when its tip is lower than
  the peer's or already the same, it holds no other block under a hash of the peer's chain nor the
  parent that chain lacks, and the blocks it does not hold pass the check (`Chain.AdmittedGap`,
  `Sync.SyncConverges`).
- `handleTx` pools transactions unverified, and verifying one that names a missing output panics.
  On a mined chain the mining loop panics exactly when a pooled transaction does so in its round;
  if one does so at the start it panics at once, and if every input of the pool is in range at the
  start it never does (`MiningLoop.OutOfRangeCrashes`, `MiningLoop.LoopOnMinedChain`,
  `MiningLoop.CrashAtOnce`, `MiningLoop.InRangeLoopNeverPanics`).
- The firewall's 64-bit sums wrap. Its budgets are safe exactly when the session budget plus the
  largest amount one call may pay is below 2^63; that amount is the least of the cap per
  transaction, the value limit and the rolling budget (`FirewallLimits.SessionOverrun`,
  `FirewallLimits.BudgetOverrun`, `FirewallLimits.RoomIsExact`). With k approvals outstanding the
  room needed is that for k full transactions (`FirewallRoom.SessionRoomIsExact`,
  `FirewallRoom.WindowRoomIsExact`).
- The firewall does not refuse negative amounts. Amounts are safe exactly when negative ones and
  payable ones are not mixed (`FirewallLimits.NegativeAmountBreaksWindow`,
  `FirewallLimits.AmountsAreExact`).
- The escrow index looks at an input's witness before its refund flag. After every mining run
  without double spends it shows the ledger's kind of settlement exactly when the settling input
  carries a witness if and only if it is not a refund (`EscrowIndex.WitnessedRefundIsMisread`,
  `EscrowRuns.IndexAgreesWithLedger`).
- `escrowKey` keeps one byte of the output index, so contract outputs 256 apart share a record. An
  output has its own record exactly when no later contract output has its key; all outputs of a
  transaction have keys of their own exactly when there are at most 256
  (`EscrowIndex.OwnRecordExactly`, `EscrowRuns.OwnKeysExactly`).

## Model

| member | source | states |
|---|---|---|
| `Utxo.KeptIsExact` | internal/core/blockchain.go:164-178 | the outputs kept for a transaction are exactly those with no recorded spend, each with its own index, in index order |
| `Utxo.PassFindsUnspent` | internal/core/blockchain.go:156-190 | if IDs are unique and every spend is visited before the output it spends, the single pass yields the true unspent table |
| `Utxo.PassIsExact` | internal/core/blockchain.go:156-190 | with unique IDs the stored result of the pass is the true unspent table if and only if every spend is visited before the output it spends |
| `UtxoUpdate.OneStoredInputIsExact` | internal/core/utxo_set.go:161-166 | removing one spent output by position from a stored list, where equal outputs cannot be told apart, leaves the true list if and only if the position exists and all outputs from the entry's place up to it are equal |
| `UtxoUpdate.AllStoredInputsExact` | internal/core/utxo_set.go:148-180 | for any list of distinct unspent indices, removing them by position from the stored list leaves the true list if they are spent highest first, and, when no two outputs of the transaction are equal, only then |
| `UtxoUpdate.EqualOutputsHideOrder` | internal/core/utxo_set.go:161-166 | of three equal outputs, spending 0 and then 1 leaves the true stored list although it is not highest first |
| `UtxoUpdate.LowestFirstKeepsSpentOutput` | internal/core/utxo_set.go:161-166 | for every transaction with two or more outputs, spending the first and then the last leaves the last, spent output in the index |
| `UtxoBlock.StoredUpdateTxs` | internal/core/utxo_set.go:145-192 | Update on stored lists is Update on index-tagged lists with the tags removed |
| `UtxoBlock.UpdateMatchesReindex` | internal/core/utxo_set.go:118-192 | for every chain and block with unique IDs that spends existing unspent outputs of older blocks, the stored index after Update is the one Reindex would store if all the block's transactions have outputs and it spends every transaction's outputs highest index first; only if they all have outputs; and, where no transaction of the chain has two equal outputs, only in that order |
| `Node.Blockchain.FindUTXO` | internal/core/blockchain.go:156-190 | the nested loops over blocks, transactions, outputs and recorded spends compute the pass |
| `Node.UtxoSet.Reindex` | internal/core/utxo_set.go:118-141 | the stored index becomes FindUTXO's table of the current chain |
| `Node.UtxoSet.Update` | internal/core/utxo_set.go:145-192 | the stored index becomes the fold of removals and insertions over the block, with missing keys skipped and emptied lists deleted |
| `Node.CreateBlockchain` | internal/core/blockchain.go:24-43 | refuses exactly a store that has a tip and panics exactly on an address that decodes to less than five bytes, changing nothing; otherwise stores a genesis block holding the address's coinbase, mined at the given time and 16 bits under the hash of its header, and makes it both tips |
| `Node.Blockchain.Blocks` | internal/core/blockchain.go:121-141 | on every store where the walk from the tip ends, iteration yields the walk along parent hashes |
| `Node.Blockchain.FindTransaction` | internal/core/blockchain.go:144-153 | wherever the search ends, because the walk does or because it meets the transaction first, it returns the first match in walking order, or nothing if no block of the walk has it |
| `Chain.FindTxIsFirst` | internal/core/blockchain.go:144-153 | of several transactions with one ID the lookup returns the first it meets, which on a chain is the newest |
| `Node.Blockchain.AddBlock` | internal/core/blockchain.go:65-118 | the new state is the chain step: known blocks and refused blocks change nothing, a higher block becomes both tips, any other is only stored; it succeeds, and it panics on a difficulty above 256 bits, exactly as stated |
| `Node.Blockchain.VerifyTransaction` | internal/core/blockchain.go:305-327 | wherever the lookups end, looks every input up on the chain and gives Verify's verdict at the stored tip's height, or an error for a missing transaction or tip |
| `Node.Blockchain.FindAnchor` | internal/core/blockchain.go:258-271 | wherever the descent ends, the ancestor walk returns the first block that is not above ten below the new height, or nothing if a parent is missing before; on a linked chain that block is exactly ten below |
| `Node.Blockchain.MineBlock` | internal/core/blockchain.go:228-287 | wherever its lookups end: on success every transaction was accepted in the old state and the block, a child of the old tip with the parent's effective difficulty and the given time, becomes both tips, and below the maximum nonce its hash is the hash of its header at its nonce and passes AddBlock's check; on failure nothing changes; the first transaction that is not accepted decides between an error and a panic; with all accepted, on a store rooted in a genesis block, it panics exactly on a difficulty above 256, and otherwise errs exactly on an empty list or when the search finds the context cancelled before a nonce that works |
| `Chain.WalkEndsExactly` | internal/core/blockchain.go:121-141 | the walk reaches an empty or missing hash if and only if no hash repeats along it |
| `Chain.NewBlockEndsExactly` | internal/core/blockchain.go:65-141 | for every store and new block, the walk from the block ends if and only if the walk from its parent ends and does not meet the block's hash |
| `Chain.AdmittedLoop` | internal/core/blockchain.go:65-118 | for every admissible proof-of-work block above the tip whose parent is not stored, the same block recorded under its parent's hash becomes the tip, and from it the walk never ends |
| `Chain.AdmittedGap` | internal/core/blockchain.go:65-118 | AddBlock stores every admissible new block whose parent is missing: the invariant stays, linkage is lost, and if the block is higher it becomes a tip from which iteration finds nothing else |
| `Chain.RunInvariant` | internal/core/blockchain.go:65-118 | along every sequence of MineBlock and AddBlock calls the two tips agree on a stored block of greatest height, the tip only gives way to a strictly higher block and no stored block is lost or changed |
| `Chain.RunLinked` | internal/core/blockchain.go:65-141 | if every added block extends a stored parent by one, every stored block but genesis sits one above its stored parent, in every state |
| `Chain.WalkReachesGenesis` | internal/core/blockchain.go:121-141 | on such a store iteration from height n yields n+1 blocks, one height at a time, ending with genesis |
| `Chain.RetargetNeverFires` | internal/core/blockchain.go:253-273 | whatever the anchor, the difficulty MineBlock uses is the parent's effective difficulty |
| `Chain.DifficultyNeverChanges` | internal/core/blockchain.go:253-287 | along every run of MineBlock calls from genesis all blocks have 16 bits |
| `MinedChain.VerifiedBlockNamesOlder` | internal/core/blockchain.go:228-237 | every input of a block MineBlock accepts names a transaction of an older block, so none names its own block |
| `MinedChain.FindUtxoIsRight` | internal/core/blockchain.go:156-190 | after every mining run with fresh IDs FindUTXO returns, per transaction and in order, exactly the outputs no input names |
| `MinedChain.UpdateOnMiningRuns` | internal/core/utxo_set.go:145-192 | on top of every mining run, for a mined block without double spends, Update of a rebuilt index gives the rebuilt one if all its transactions have outputs and it spends highest index first; only if they all have outputs; and, where no transaction has two equal outputs, only in that order |
| `KeptIndex.IndexKeptByUpdate` | internal/cli/root.go:277-284 | after every mining run without double spends, the index kept by Update alone since genesis is the rebuilt one if all transactions have outputs and the whole run spends them highest index first; only if they all have outputs; and, where no transaction has two equal outputs, only in that order |
| `MinedChain.EveryContractSettledProperly` | internal/core/transaction.go:215-231 | along every mining run every input on the chain names an output the chain holds, and a contract output was claimed by the seller against its lock or refunded to the buyer above its timeout, at the height of the spending block's parent |
| `MinedChain.AcceptedStaysAccepted` | internal/core/blockchain.go:305-327 | along mining runs a transaction the chain accepts stays accepted, so a refund's verdict only moves from rejected to accepted |
| `Conservation.SupplyIsUnspent` | internal/core/blockchain.go:156-190 | the value in FindUTXO's table is the value of the outputs no input names |
| `Conservation.BlockConserves` | internal/core/blockchain.go:228-287 | a block changes that value by what its coinbases issue less what its other transactions burn |
| `Conservation.SupplyIsConserved` | internal/core/blockchain.go:228-287 | after every mining run without double spends, unspent value plus burned value equals coinbase issuance |
| `Conservation.SupplyNeverExceedsIssuance` | internal/core/transaction.go:158-242 | if no coinbase output is negative, issuance stays below 2^63 and no transaction's outputs reach 2^63, nothing is minted: supply is at most issuance |
| `Conservation.OneBlockMintsValue` | internal/core/transaction.go:172-239 | that bound on outputs is needed: on top of every such run with an unspent ordinary output, for every key, fresh ID and fresh hash, one more block may be mined after which supply exceeds issuance |
| `Transactions.Verify` | internal/core/transaction.go:158-242 | the verdict, crash included, is the declarative one: all inputs known, resolved, signed over their own digest and allowed by their script, outputs positive, wrapped sums in order |
| `Signing.VerdictIsExact` | internal/core/transaction.go:158-242 | in terms of the transaction's own fields: accepted if and only if it is a coinbase, or every previous transaction is known, every output positive, every input names an existing output, is signed over its message and settles a contract output properly, and the wrapped sums are in order; crashed if and only if all is known and positive and the first input that does not pass names an output that does not exist |
| `Signing.Sign` | internal/core/transaction.go:59-100 | every input gets a signature over its own digest; missing transactions change nothing; an index panic leaves exactly the earlier inputs signed |
| `Signing.DigestCovers` | internal/core/transaction.go:70-97 | the digest signed for an input is the hash of the encoding of: no ID, every output in full, every input's outpoint and refund flag without signature or witness, and in that input alone the buyer's key hash for an escrow refund, else the output's key hash |
| `Signing.DigestBindsContent` | internal/core/transaction.go:133-155 | two transactions with one digest have the same outputs, outpoints and refund flags, or their two messages have one encoding or colliding encodings |
| `Signing.DigestIgnoresSignatures` | internal/core/transaction.go:70-97 | the digest signed for an input equals the one recomputed after all signatures are written |
| `Signing.SignThenVerify` | internal/core/transaction.go:59-242 | a transaction signed with the key its inputs carry is accepted if and only if its scripts allow it and its wrapped sums are in order |
| `Signing.SettlementIsSound` | internal/core/transaction.go:215-231 | every contract output an accepted transaction spends was claimed with a preimage of the lock by the seller's key, or refunded above the timeout by the buyer's key, and every input carries 64 bytes of signature that verify under its key for its digest |
| `Signing.NoEarlyRefund` | internal/core/transaction_output.go:105-110 | up to the timeout a contract output only moves against a preimage and the seller's key |
| `Signing.AcceptanceIsMonotone` | internal/core/transaction.go:158-242 | acceptance at a height implies acceptance at every greater height |
| `Limits.CheckLimits` | internal/network/grpc_server.go:73-90 | accepts exactly the transactions within the size limit whose outputs are all within the value limit |
| `Limits.LimitsKeepSumsExact` | internal/core/transaction.go:172-239 | within the limits neither 64-bit sum wraps |
| `Limits.AcceptedWithinLimits` | internal/core/transaction.go:237-239 | an accepted transaction within the limits pays out no more than its inputs hold |
| `Limits.InflationTestExact` | internal/core/transaction.go:237-239 | for every pair of bounds on the input and output totals, the test is exact for all transactions within them if and only if both bounds are below 2^63 |
| `Limits.UnlimitedSumsWrap` | internal/core/transaction.go:175-239 | beyond the limits, for every suite, key and ordinary output there is an accepted transaction that takes in that output's value and pays out 2^64 - 2 |
| `CoinSelection.FindSpendableOutputs` | internal/core/utxo_set.go:16-43 | the chosen outputs are the shortest prefix of the candidates whose running total reaches the amount, or all of them |
| `CoinSelection.EligibleExactly` | internal/core/utxo_set.go:22-35 | the candidates are exactly the stored outputs, under their list positions, that pay to the key hash and are no escrow |
| `CoinSelection.SelectedIsOwned` | internal/core/utxo_set.go:16-43 | every chosen output pays to the key hash and is no escrow; when the total stays short, every output that qualifies was chosen |
| `CoinSelection.SelectionIsMinimal` | internal/core/utxo_set.go:25-35 | below 2^63 the total is exact, and either it reaches the amount with the last choice necessary or every eligible output was chosen |
| `Spending.PositionIsTrueIndex` | internal/core/utxo_set.go:25-29 | a stored position is the output's real index if and only if nothing at or below it has been spent |
| `Spending.SpentFirstShiftsAll` | internal/core/utxo_set.go:25-29 | once output 0 is spent every remaining output sits one position below its index |
| `Spending.ShiftedPaymentNamesSpentOutput` | internal/core/transaction.go:265-318 | with a true index and the first of two outputs to the wallet spent, a payment that selects the second names the first, spent one, and is accepted at every height if and only if the first is worth at least the second |
| `Spending.BuildInputs` | internal/core/transaction.go:279-297 | in whatever order the map is iterated, the inputs are exactly the chosen outputs, each once |
| `Spending.NewUTXOTransaction` | internal/core/transaction.go:265-318 | fails on too little, panics on a bad amount or address, else signs a draft of the selection, the payment and the change |
| `Spending.NewEscrowTransaction` | internal/core/transaction.go:321-378 | the same with an escrow output first |
| `Spending.BuildZKCPTransaction` | internal/marketplace/escrow_manager.go:103-167 | the same with a ZKCP output first, after refusing an invalid seller address |
| `Spending.SpendBalances` | internal/core/transaction.go:265-378 | if nothing at or below a chosen position is spent, the inputs resolve to exactly the selected total and the outputs add up to exactly the same |
| `Spending.SpendAccepted` | internal/core/transaction.go:265-318 | the signed result is then accepted at every height if and only if no chosen output is a ZKCP contract the empty witness does not open |
| `Spending.BuiltSpends` | internal/core/transaction.go:265-378 | a built transaction pays the first output and the exact difference back to the wallet's own key; its inputs name each chosen output exactly once and nothing else, with the wallet's key; its ID is the hash of the unsigned transaction |
| `Spending.BuiltIsAccepted` | internal/core/transaction.go:265-378 | from end to end: with enough funds under those conditions a builder returns a transaction paying the first output and the change, conserving value, and accepted at every height if and only if no chosen output needs a witness |
| `Spending.ZkcpIsSelectedAndRejected` | internal/core/utxo_set.go:25-29 | with any true index, where the scan comes first to a transaction headed by an unspent ZKCP output of the wallet, that output alone is selected for every amount it covers, and the transaction built from it is rejected at every height |
| `Builders.OutputsAreAsAsked` | internal/core/transaction_output.go:49-118 | the three constructors panic exactly on a value that is not positive or an address that decodes to less than five bytes; otherwise they store the value, the key hashes, the lock and the timeout under their own script type |
| `Builders.NewCoinbaseTX` | internal/core/transaction.go:245-262 | panics exactly on a malformed address; otherwise a coinbase with one ordinary output of the subsidy, locked to the address's key hash, carrying the given data or else the random text, with its own hash as ID |
| `Builders.SignTransaction` | internal/core/blockchain.go:290-302 | fails if a transaction is missing, leaves a coinbase as it is, panics on a bad index, else signs against the transactions found on the chain |
| `Builders.BuildSettlement` | internal/core/transaction.go:381-464 | claims and refunds: fails on a missing transaction or index, panics on a worthless output, else the signed settlement of that output |
| `Builders.SettlementPays` | internal/core/transaction.go:381-464 | a settlement has one input with the given outpoint, data and refund flag, signed by the wallet over its own message, and one output of the whole value to the wallet's own key; its ID is the hash of the unsigned transaction |
| `Builders.ClaimAccepted` | internal/core/transaction.go:381-421 | a built claim is accepted, at every height alike, if and only if the data hashes to the lock and the wallet is the seller's |
| `Builders.RefundAccepted` | internal/core/transaction.go:424-464 | a built refund is accepted if and only if the height is above the timeout and the wallet is the buyer's |
| `Builders.EscrowLifecycle` | internal/core/transaction_output.go:68-126 | an escrow or ZKCP output made for two wallets' addresses can be claimed by the seller at every height and refunded to the buyer at exactly the heights above the timeout |
| `Base58.Base58Encode` | internal/core/base58.go:11-36 | the division, leading-zero and reversal loops compute the encoding |
| `Base58.Base58Decode` | internal/core/base58.go:39-65 | the loops compute the decoding, with characters outside the alphabet counted as -1 and the sign dropped |
| `Base58.ReverseBytes` | internal/core/utils.go:17-21 | the array is reversed in place |
| `Base58.DecodeEncode` | internal/core/base58.go:11-65 | decoding an encoding gives back every byte string |
| `Base58.EncodeDecode` | internal/core/base58.go:11-65 | encoding a decoding gives the string back if and only if it is over the alphabet |
| `Wallets.WalletAddress` | internal/core/wallet.go:40-75 | every wallet's address validates, decodes to 25 bytes of version 0, and locking to it stores exactly the wallet's key hash |
| `Wallets.ValidExactly` | internal/core/wallet.go:64-82 | an address is valid if and only if it decodes to at least five bytes whose last four begin the double SHA-256 of the others |
| `Wallets.ChecksumsAgree` | internal/core/wallet.go:78-82 | two valid addresses end in the same four bytes if and only if the double SHA-256 of their payloads begins with the same four |
| `Wallets.ValidAddresses` | internal/core/wallet.go:64-75 | among strings over the alphabet the valid addresses are exactly the encodings of payloads followed by their checksum |
| `Wallets.AddressIsUnique` | internal/core/transaction_output.go:29-36 | a version byte and a key hash have at most one valid address over the alphabet |
| `Merkle.NewMerkleTree` | internal/core/merkle_tree.go:25-59 | the level loop ends and returns the root of the tree read from the top, or nothing for empty input |
| `Merkle.SmallRoots` | internal/core/merkle_tree.go:25-78 | the roots of one, two and three data written out: left before right, and the odd node hashed again beside itself |
| `Merkle.EqualLengthBinding` | internal/core/merkle_tree.go:20-59 | two lists of one length with the same root are equal, or two strings hashed for the two trees collide |
| `Merkle.AnyLengthBinding` | internal/core/merkle_tree.go:20-59 | the same for any lengths when no datum is 32 or 64 bytes long |
| `Merkle.PairAsDatum` | internal/core/merkle_tree.go:62-78 | for every hash, a pair of data and the single datum made of their two hashes share a root |
| `Merkle.PaddingAsDatum` | internal/core/merkle_tree.go:40-48 | for every hash, a list of three and the same list extended by the hash of its last datum share a root |
| `Merkle.BindingExact` | internal/core/merkle_tree.go:20-59 | roots bind lists over a set of datum sizes, for every hash, if and only if the set excludes 32 and 64 |
| `ProofOfWork.TargetIsLeadingZeros` | internal/core/proofofwork.go:27-41 | a hash is below the target if and only if its first `bits` bits are zero |
| `ProofOfWork.HashTransactions` | internal/core/block.go:61-79 | the Merkle root of the encoded transactions, or nil for an empty block |
| `ProofOfWork.HashIsOfHeader` | internal/core/proofofwork.go:43-60 | a block's hash is SHA-256 of the parent hash, the Merkle root of the encoded transactions, the time, the difficulty (16 for none) and the nonce, in that order |
| `ProofOfWork.ValueOfHex` | internal/core/utils.go:9-14 | IntToHex writes eight bytes, most significant first, of the number modulo 2^64 |
| `ProofOfWork.HeaderIsInjective` | internal/core/proofofwork.go:43-60 | headers over parents of one length with equal bytes agree in parent, root, time, difficulty and nonce |
| `ProofOfWork.HashBindsBlock` | internal/core/proofofwork.go:43-60 | blocks with parents and transaction lists of one length and one hash agree in header and encoded transactions, or SHA-256 collides on the headers or within the two Merkle trees |
| `ProofOfWork.AdmissibleExactly` | internal/core/blockchain.go:72-81 | AddBlock's check passes, without an authority's signature, if and only if the hash at the recorded nonce has as many leading zero bits as the difficulty asks (16 for none, at most 256); with one, if and only if the authority check does |
| `ProofOfWork.Run` | internal/core/proofofwork.go:63-103 | a nonce below the maximum is the least that works, with its hash; the maximum means none works; the errors are exactly an empty block and a context found cancelled at a multiple of 1000 before a nonce that works |
| `ProofOfWork.NewBlock` | internal/core/block.go:26-49 | the block carries what was asked for; below the maximum nonce its hash is its header's at the least nonce that works and it passes AddBlock's check; it fails exactly when the search does |
| `ProofOfWork.CalculateNewDifficulty` | internal/core/proofofwork.go:122-148 | unchanged off the interval; on it, for a value from 8 to 24, one more exactly when the blocks took under half the target and the value is below 24, one less exactly when they took over twice the target and it is above 8 |
| `Sync.IterationWhileDownloading` | internal/network/server.go:268-272 | for every node behind its peer, gaps in its store included, after each downloaded block iteration ends and yields the contiguous downloaded part and then what was already held of the peer's chain below it |
| `Sync.SyncConverges` | internal/network/server.go:228-358 | for every node and peer in states that calls can reach, the peer's walk ending: a node sent the peer's inventory and then only what it asks for ends with the peer's tip, chain and UTXO index if and only if its tip is lower or the same, it holds no other block under a hash of the peer's chain nor the parent that chain lacks, and the blocks it lacks are admissible; it then asks for every block of that chain once |
| `Sync.InterruptedDownloadResumes` | internal/network/server.go:247-309 | after any number of downloaded blocks the invariant holds and the same inventory, sent again, finishes the download |
| `Network.Server.HandleInv` | internal/network/server.go:296-309 | queues all hashes but the first and asks for the first |
| `Network.Server.HandleBlock` | internal/network/server.go:247-280 | a refused block changes nothing, a difficulty above 256 bits panics; otherwise the block's transactions leave the mempool and the next hash is requested or the index rebuilt |
| `Network.Server.HandleGetBlocks` | internal/network/server.go:334-335 | answers with the hashes of the chain, newest first |
| `Network.Server.HandleTx` | internal/network/server.go:390-412 | pools the transaction under its ID; the first known node stops there, any other goes on to the mining loop |
| `Network.Server.Mine` | internal/network/server.go:414-509 | against the real chain the loop ends; each mined block holds exactly the pooled transactions accepted in that state, once each, and the miner's coinbase, and is a MineBlock step; the pool loses exactly what was mined, the index is rebuilt, and the reason it stops for is one of those listed, with the state it stops in |
| `MiningLoop.LoopOnMinedChain` | internal/network/server.go:414-509 | on a mined chain with fresh hashes and IDs the loop panics if and only if verifying a transaction then pooled panics, having panicked on none in earlier rounds; it fails to mine only when cancelled, so MineBlock never rejects what the loop assembled; the table Reindex stores is the true unspent table |
| `MiningLoop.CrashAtOnce` | internal/network/server.go:426-434 | a loop handed a pool with a transaction whose verification panics mines nothing and panics |
| `MiningLoop.InRangeLoopNeverPanics` | internal/network/server.go:414-509 | on a mined chain, if every input of the pool is in range of whatever it may name on the chain or in the pool at the start, and coinbase IDs differ from pooled ones, the loop never panics, however many rounds it takes |
| `MiningLoop.MinedOnce` | internal/network/server.go:426-498 | no pooled transaction is mined after a block that holds its ID |
| `MiningLoop.OutOfRangeCrashes` | internal/core/transaction.go:180-186 | verifying a transaction whose first input names an output past the last one of a known transaction panics |
| `Firewall.FirewallObject.Evaluate` | internal/firewall/firewall.go:49-114 | the decision and the pruned window are those of the specification, window untouched when a cap refuses; an approval names an allowed recipient |
| `Firewall.WindowAfterEvaluate` | internal/firewall/firewall.go:54-87 | Evaluate leaves the window as it was when a cap refuses, and otherwise exactly the entries of the last 24 hours, each as often as before; the session total stays |
| `Firewall.FirewallObject.RecordTransaction` | internal/firewall/firewall.go:117-127 | adds the amount to the session and appends the entry |
| `Firewall.FirewallObject.EvaluateThenRecord` | internal/mcp/tools.go:117-123 | one tool call is one step of a sequential run |
| `Firewall.OnlyAllowedIsRecorded` | internal/firewall/firewall.go:49-127 | in every run, whatever the policy, clock and amounts, a call records its own entry or nothing, and everything on record went to a recipient on the list, where there is one, within both caps on one transaction |
| `Firewall.BudgetsHold` | internal/firewall/firewall.go:49-127 | for every policy whose session budget plus largest payable amount is below 2^63, every sequential run with non-negative amounts and a monotone clock keeps every 24-hour window of the full history within the rolling budget, every 1-hour window within the rate limit and the total within the session budget |
| `Firewall.RateHolds` | internal/firewall/firewall.go:78-99 | the rate limit holds in every run with a monotone clock, whatever the amounts |
| `Firewall.DecisionIsExact` | internal/firewall/firewall.go:49-114 | after every run as in BudgetsHold the firewall approves exactly what the policy permits on the full, unpruned history: caps, budgets, rate and recipient list |
| `FirewallLimits.RoomIsExact` | internal/firewall/firewall.go:51-95 | for every session budget, rolling budget and cap per transaction, all orderly runs respect all policies with them if and only if the session budget plus the least of the cap, the value limit and the rolling budget is below 2^63 |
| `FirewallLimits.SessionOverrun` | internal/firewall/firewall.go:65-68 | otherwise a run of one call a day spends the session budget and then once more, the sum wraps, and more than the budget is recorded |
| `FirewallLimits.BudgetOverrun` | internal/firewall/firewall.go:65-95 | with equal budgets and no room, a run at one instant has both sums wrap and records more than either budget |
| `FirewallInterleaving.InterleavingBound` | internal/firewall/firewall.go:49-127 | with at most k approvals outstanding, recorded plus outstanding spend is at most the session budget plus k-1 transactions of the largest size one call may pay |
| `FirewallInterleaving.BoundIsAttained` | internal/firewall/firewall.go:65-68 | for every k and every allowed amount some interleaving reaches that bound exactly |
| `FirewallInterleaving.InterleavedWindows` | internal/firewall/firewall.go:49-127 | with at most k approvals outstanding, a monotone clock and room under either budget, every 24-hour window holds at most the rolling budget plus k-1 transactions of that size, and every 1-hour window at most k-1 records above the rate limit |
| `FirewallInterleaving.WindowBoundsAttained` | internal/firewall/firewall.go:78-99 | for every k and every allowed amount with k+1 of it below 2^63, an interleaving that meets all conditions of InterleavedWindows fills a day and an hour exactly to those bounds |
| `FirewallRoom.SessionRoomIsExact` | internal/firewall/firewall.go:65-68 | where both budgets admit a full transaction, the session bound holds in all interleavings under all policies with these budgets and cap if and only if the session budget plus k full transactions is below 2^63 |
| `FirewallRoom.WindowRoomIsExact` | internal/firewall/firewall.go:78-95 | likewise the bound on every 24-hour window holds if and only if one of the two budgets plus k full transactions is below 2^63 |
| `FirewallLimits.SessionTestExact` | internal/firewall/firewall.go:65-68 | the session test agrees with the true comparison if and only if the sum is below 2^63 |
| `FirewallLimits.NegativeAmountBreaksWindow` | internal/firewall/firewall.go:78-92 | for every negative amount and every payable one there is a policy with room and a run of the two that exceeds the rolling budget |
| `FirewallLimits.AmountsAreExact` | internal/mcp/tools.go:111-123 | for every set of amounts, all runs over it with a monotone clock respect all policies with room if and only if it does not hold both a negative and a payable amount |
| `EscrowIndex.ReplayIsIdempotent` | cmd/indexer/main.go:66-94 | however often and wherever the stream broke before, one complete pass leaves the escrow table of a single pass |
| `EscrowIndex.StatusIsMeant` | internal/indexer/indexer.go:28-80 | from its creation on an escrow keeps its terms, has the status its events mean and names its last settler |
| `EscrowIndex.MeantStatusIsRight` | internal/indexer/indexer.go:54-80 | pending means neither settled nor timed out, expired means timed out and never settled, claimed or refunded is the kind of the last settlement |
| `EscrowIndex.PendingIsNotDue` | internal/indexer/indexer.go:74-80 | after a pass over nondecreasing heights every pending escrow's timeout is above every processed height |
| `EscrowRuns.IndexAgreesWithLedger` | internal/indexer/indexer.go:28-80 | after indexing, from height 1 on, every mining run without double spends: the record of a contract output whose key is its own shows its seller, buyer, amount, lock, timeout and creation height; at most one input on the chain names the output; without one the record is pending or expired; with one, which the ledger took as a proper claim or refund, the record has the ledger's kind if and only if a witness is present exactly when the input is not a refund |
| `EscrowSettlers.RecordNamesSpender` | internal/indexer/indexer.go:52-71 | in the same runs a claimed record shows the witness of the one input that names the output and the ID of a transaction on the chain that has it; a refunded record shows the ID of the transaction that has the refund |
| `EscrowRuns.OwnKeysExactly` | internal/indexer/store.go:84-86 | all outputs of a transaction have keys of their own if and only if there are at most 256 |
| `EscrowIndex.OwnRecordExactly` | internal/indexer/store.go:84-97 | once a transaction's outputs are indexed, the record under a contract output's key shows that output's seller, buyer, amount, lock, timeout and height, pending and with no settler, if and only if no later contract output of it has the key |
| `EscrowIndex.WitnessedRefundIsMisread` | internal/indexer/indexer.go:58-69 | a transaction accepted with a refund stays accepted with any witness put in, the ledger still takes it as a refund, and the index records a claim |
| `Indexer.IndexStore.SaveEscrow` | internal/indexer/store.go:89-97 | stores the record under its key and keeps the escrow counter equal to the number of distinct keys |
| `Indexer.IndexStore.GetActiveEscrows` | internal/indexer/store.go:109-119 | returns exactly the pending records' keys |
| `Indexer.IndexStore.ProcessBlock` | internal/indexer/indexer.go:28-91 | the escrow table becomes the fold of the block's events, the counter stays right, totals advance, and the block goes in front of at most twenty recent ones |

## Left out

- `Node.Blockchain.FindTransaction`: like every method that walks the chain, requires that its search comes to an end; on any other store the source never returns.
- `FirewallRoom.SessionRoomIsExact`: budgets smaller than one full transaction are not characterised, because there the cap is never the binding limit; the bounds are only shown to hold with enough room.
- `FirewallRoom.WindowRoomIsExact`: the same.
- `MiningLoop.InRangeLoopNeverPanics`: a condition on the pool as handed over, sufficient for all rounds; the exact condition, `MiningLoop.LoopOnMinedChain`, depends on the round.
- `Network.Server.Mine`: where a mined block makes the walk go round, the model stops with that outcome; the source does not return.
- `MiningLoop.LoopOnMinedChain`: assumes that mined hashes and transaction IDs are fresh; a mined hash that collides with a stored one overwrites it, as in the source.
- `ProofOfWork.Run`: difficulties above 256 bits, for which the source's shift panics before, are excluded, and so is running out of memory on hugely negative ones.
- Proof-of-authority signing and the key list: the check is one field of the suite.
- The encodings (gob, JSON, protobuf), BoltDB errors including its refusal of empty keys, sockets, TLS, metrics and logging.
- Aliasing: transactions, blocks and index records are values; only input slices under signing, byte buffers and the objects' own fields are updated in place. The links from Merkle nodes to their children are not kept.
- Ownership of ordinary outputs and double-spend prevention by Verify: the code establishes neither, so distinct and unspent inputs are hypotheses where value is concerned.
- Concurrency of the chain and server objects: calls are atomic; only the firewall's two locks are interleaved.
- SubmitTransaction's mempool insertion, FindUTXOItems, balance queries, block streaming, minting and version and address messages: they would only add easy members.
- Index totals other than the escrow counter count every pass of a replayed stream again; only the escrow table is replay-safe.
- ZKCP proofs, the service catalog, chaos injection, policy signing, wallet files, REST, CLI and dashboard.

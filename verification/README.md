# A verified model of the minimal Bitcoin node

The project models the full node of a small Bitcoin implementation in Go and proves what its documentation and
comments promise, or, where the code does something else, exactly what it does.

A node keeps a tree of blocks. Every block wrapper caches the ledger of unspent outputs after that block. A received
block is checked against a copy of its parent's ledger, its transactions and coinbase are replayed on the copy, and a
new wrapper is linked under the parent. The tail is the highest block and moves only to a strictly higher one. Nodes
catch up with peers in batches of five blocks, gossip accepted blocks to all peers, mine from a transaction pool, and
can probe the network; wallets build transfers.

## How the model is built

- `Types`, `Encoding`, `Difficulty`: messages, byte encodings, proof of work. `Layout` says where every field stands in
  the bytes.
- `LedgerSpec` says what a transaction, a fee and a batch mean for a ledger; `LedgerOps` has the `Ledger` object and
  the loops of the program, each proved against it.
- `NodeSpec` is a node as a state machine over values: one step per mutex-protected method, runs of any steps, the
  invariant. `Node` has the objects (`BlockWrapper`, `Blockchain`, `TransactionPool`, `FullNode`) and the methods that
  change them in place; each method is proved to be one step of the machine. The ghost field `State` of a node is
  tied to its objects by `Valid()`.
- `Verdicts` says what a node accepts and how it answers in terms of bytes, digests, signatures and heights, and
  `Ownership` what a transaction does to the outputs of one key.
- `Safety`, `Finality`, `Agreement` have the results about whole runs: supply, single spending, conservation; which
  blocks stay; what two nodes have in common.
- `Mining`, `Sync`, `Alarm`, `Server`, `Gossip`, `Probe`, `Wallet`: block production, catching up, noticing that it is
  time to, mining and setting a block and taking in a transaction, one block spreading through a network, the network
  prober, transfers. `Routes` is
  reachability for the two networks. Steps of others that come between the locked parts of a long operation are a
  parameter of its method.
- `Witness` has states of a new node, reached by accepted blocks and valid transactions, in which a comment of the
  program is wrong. They use a digest that depends on the length of a message only (`Toy`).

Amounts are `real`. SHA-256, the float encoding, key parsing and signature verification are functions in a `Crypto`
record, about which nothing is assumed. Where a result needs a digest that separates, the hypothesis is about the
blocks or transactions at hand: equal digests come from equal bytes, and equal float bits from equal amounts
(`DigestSeparates`, `SeparatesTxs`). Signatures are not hashed, so "the same content" is always up to signatures. A Go
panic is the error `Panic` and the call that ends the process is the error `Fatal`; both leave the node's state
unchanged in the model. The configuration has a non-negative reward and confirmation depth, and any difficulty.

## Where the code and its comments differ

- The fee is outputs minus inputs (utils/transaction_utils.go:187), never positive, so a miner can claim the reward
  minus what was paid, not plus (full_node/full_node.go:152, utils/blockchain_utils.go:13): `ClaimingFees`,
  `FeesCannotBeClaimed`.
- "There should never be a case where handle transaction success but fail calcFee" (utils/blockchain_utils.go:28): it
  happens exactly when a batch that succeeds claims an output that is not in the starting ledger, which for new ids
  means that it spends its own outputs (outputs it overwrites keeping their values): `FatalFeeExactly`,
  `FatalFeeBranch`, `FatalFeeBranchHappens`.
- A block hash does not determine a block, and a transaction id not a transaction, however good the digest: the bytes
  that are hashed have no counts and no lengths (utils/transaction_utils.go:33-63, utils/blockchain_utils.go:64-96).
  Two blocks with one hash split two nodes (`MergedBlockSplitsNodes`, `MergedBlockHappens`), and the one that took the
  wrong one never follows (`MergedNodeNeverFollows`); a coinbase can have the id of a transaction (`CoinbaseTakesId`,
  `CoinbaseTakesIdHappens`). Nodes agree exactly if what shares a hash has one shape, that is the same counts and key
  lengths (`NodesAgree`), and ids are distinct exactly if what shares an id has one shape and transactions without
  inputs have ids of their own (`IdsDistinctExactly`).
- "Because no matter what it will not win" (full_node/full_node.go:194-196): for confirmation depth 0 there are no
  forks at all (`NoForksAtDepthZero`), but for every other one no depth makes a block final, since a branch stays alive
  while its tip is within that depth of the tail (`BuriedBlockLeaves`, `BuriedBlockLeavesHappens`). `FinalForever` has
  the condition under which a block is final and `LiveForkTakesOver` what happens without.
- The count of blocks that cannot be handled is "reduced by successful handle" (full_node/full_node_server.go:60-62):
  it is not, only a sync that ends well sets it back (`CountIsMisses`). A sync that fails leaves the server marked as
  syncing (full_node/full_node_server.go:173-177), and it never asks for one again (`FailedSyncSilences`).
- Mining cannot end with "failed to find any nounce": past 2^55 the encoding of the nounce overruns its buffer first.
- Coinbase heights are not checked (utils/transaction_utils.go:211-232), so coinbase ids need not be distinct:
  `RepeatedCoinbaseOverwrites`. `HeightsSeparateCoinbases` says when they are. An honest miner's height can lag too,
  being read before the snapshot it builds on: `CoinbaseHeightLags`.

## Model

| member | source | states |
|---|---|---|
| Encoding.HexRoundTrip | utils/bytes_utils.go:9-19 | reading back written hex gives the bytes; written hex is lower case |
| Encoding.HexCanonical | utils/bytes_utils.go:9-19 | a lower-case hex string is determined by the bytes it denotes |
| Encoding.VarintDefined | utils/bytes_utils.go:21-25 | the padded 8-byte integer encoding is defined exactly on -2^55 <= i < 2^55 |
| Encoding.VarintInjective | utils/bytes_utils.go:21-25 | and is injective there |
| Encoding.Int64ToBytes | utils/bytes_utils.go:21-25 | the buffer loop gives the zigzag varint padded to 8 bytes, or overruns the buffer exactly when that is longer |
| Encoding.IsSameBytes | utils/bytes_utils.go:33-45 | true exactly for equal byte strings |
| Encoding.GetTransactionBytes | utils/transaction_utils.go:33-63 | inputs, outputs, height and optionally the hash, concatenated, with the first encoding error returned |
| Encoding.GetInputDataToSignByIndex | utils/transaction_utils.go:66-86 | the signed message is the one input and all outputs, whatever the signatures |
| Encoding.GetBlockBytes | utils/blockchain_utils.go:64-96 | nounce, parent hash, transactions with hashes and coinbase with hash, concatenated |
| Encoding.TxBytesInjective | utils/transaction_utils.go:12-63 | for equal counts and widths and lower-case hex the bytes determine the transaction up to signatures, also inside a longer message |
| Encoding.BlockBytesInjective | utils/blockchain_utils.go:64-96 | likewise for blocks of one shape |
| Encoding.NouncesSeparateBlocks | utils/blockchain_utils.go:45-61 | two nounces never give the same bytes to hash |
| Layout.HexAt | utils/bytes_utils.go:9-11 | written hex has two digits for a byte, in order, the high half first |
| Layout.HexReads | utils/bytes_utils.go:13-19 | reading hex fails exactly on an odd length or a character that is no digit of either case |
| Layout.VarintAt | utils/bytes_utils.go:21-25 | byte by byte: the seven-bit groups of 2i, or of -2i-1 for negative i, least significant first, the top bit set while more follow, zeros after |
| Layout.PartsLayout | utils/transaction_utils.go:12-29 | the digest an input names stands before its index, an amount before its key |
| Layout.TxLayout | utils/transaction_utils.go:33-63 | inputs, outputs, eight bytes of height, and the hash last, by position |
| Layout.BlockLayout | utils/blockchain_utils.go:64-96 | eight bytes of nounce, the parent hash, the transactions and the coinbase, by position |
| Difficulty.ByteHasLeadingZeros | utils/blockchain_utils.go:107-126 | the bit test is the comparison of the big-endian value with 2^(8*len - d); at a negative difficulty it answers true or panics, and at 8*len zero bytes it panics |
| Difficulty.ThresholdMonotone | utils/blockchain_utils.go:107-126 | passing a difficulty means passing every smaller one |
| Difficulty.MatchDifficulty | utils/blockchain_utils.go:98-105 | the verdict, true exactly for encodable bytes with a digest below 2^(256 - d) at 0 <= d < 256, and the hex digest; no match when they cannot be encoded, a panic when the test panics |
| Difficulty.Mine | utils/blockchain_utils.go:45-61 | succeeds exactly if some nounce below 2^55 matches before a command arrives, and returns the least one; otherwise the command if every try before it can be made, or a panic; never runs out of nounces |
| Difficulty.MineExactly | utils/blockchain_utils.go:45-61 | mining succeeds exactly if some nounce below 2^55 brings the digest below the target before a command arrives |
| Difficulty.MineEndings | utils/blockchain_utils.go:45-61 | otherwise it ends with the command if no nounce before that overruns a buffer, or else with a panic |
| Difficulty.WonExactly | utils/blockchain_utils.go:45-61 | the block found is the given one with a nounce and its own digest, which is below the target; every smaller nounce gives a digest at or above it |
| LedgerSpec.ApplyTxAt | utils/ledger_utils.go:34-51 | which keys the ledger has after a transaction, and with which outputs |
| LedgerSpec.FeeIsDefined | utils/transaction_utils.go:159-191 | the fee exists exactly if every input is in the ledger and no transaction pays out more than it takes in; it is never positive |
| LedgerSpec.ReplaySnoc | utils/ledger_utils.go:58-71 | one transaction more in a batch is decided by the ledger the others leave: applied if valid there, and otherwise last of the failed |
| LedgerSpec.BatchVerdict | utils/ledger_utils.go:58-71 | without spends inside the batch it succeeds exactly if every transaction is valid on the starting ledger and inputs are disjoint |
| LedgerSpec.BatchLedger | utils/ledger_utils.go:34-71 | the result is the ledger minus all inputs overridden by all outputs |
| LedgerSpec.BatchOrderIndependent | utils/transaction_utils.go:252-258 | every order of the same transactions gives the same verdict and ledger |
| LedgerSpec.FeeOfSuccessfulBatch | utils/blockchain_utils.go:18-29 | a successful batch that spends none of its own outputs has on the starting ledger the fee added up along the evolving one |
| LedgerSpec.FatalFeeExactly | utils/blockchain_utils.go:18-29 | the branch called impossible is taken exactly when some transaction of a successful batch claims an output that is not in the starting ledger, if outputs that the batch overwrites keep their values |
| LedgerSpec.FatalFeeBranch | utils/blockchain_utils.go:25-29 | for a batch whose ids are not in the starting ledger that is exactly when it spends its own outputs |
| LedgerSpec.SurvivorsSucceed | utils/ledger_utils.go:58-71 | the transactions that did not fail, rerun in order, all succeed with the same ledger |
| LedgerSpec.TxBalance | utils/ledger_utils.go:34-51 | a transaction changes the ledger total by outputs minus inputs minus what it overwrites |
| LedgerSpec.TxConserves | utils/ledger_utils.go:34-51 | with fresh output keys by outputs minus inputs |
| LedgerSpec.ValidTxSupply | utils/transaction_utils.go:96-155 | a valid transaction never raises the sum of positive outputs, even when it overwrites one |
| LedgerOps.GetLedgerDeepCopy | utils/ledger_utils.go:74-80 | a new object with the same entries, in any order of the map |
| LedgerOps.ProcessInputsAndOutputs | utils/ledger_utils.go:34-51 | claims every input, then stores every output, in place |
| LedgerOps.IsValidTransaction | utils/transaction_utils.go:96-155 | no error exactly if hash, presence, signatures, distinct inputs, non-negative outputs and totals are right; otherwise the first error in the order of the checks |
| Verdicts.SignaturesDecide | utils/transaction_utils.go:121-133 | a transaction right in everything else is accepted exactly if every signature verifies, over its input and all outputs, under the key of the output claimed; otherwise the error is the bad signature |
| Verdicts.FirstFault | utils/transaction_utils.go:100-140 | the hash is looked at first; then the first input that is not right says why: not unspent, no key, wrong signature, claimed before |
| Verdicts.OutputsDecide | utils/transaction_utils.go:142-155 | with every input right, a negative output or outputs above the inputs are refused, anything else accepted |
| Verdicts.ValidExactly | utils/transaction_utils.go:96-155 | what it takes to be valid, in terms of bytes, digests, keys and signatures |
| LedgerOps.HandleTransaction | utils/ledger_utils.go:22-32 | applies a valid transaction; otherwise returns the first error and leaves the ledger alone |
| LedgerOps.HandleTransactions | utils/ledger_utils.go:58-71 | the in-place loop gives the ledger and the failed transactions of the sequential replay |
| LedgerOps.CalcTxFee | utils/transaction_utils.go:159-191 | the fee as written, or the first reason why there is none |
| LedgerOps.IsValidCoinbase | utils/transaction_utils.go:211-232 | no error exactly for a right hash, no input, one output and at most the maximum |
| LedgerOps.FillTxHash | utils/transaction_utils.go:194-205 | the filled hash is the right one and nothing else changes |
| LedgerOps.CreateCoinbaseTx | utils/transaction_utils.go:237-248 | the coinbase that pays the value to the key, rightly hashed; a panic if its height cannot be encoded |
| LedgerSpec.CoinbaseTxValid | utils/transaction_utils.go:211-248 | that coinbase exists exactly for heights that can be encoded, and passes its own validation exactly up to the maximum it pays |
| NodeSpec.InitialInv | model/composite_type.go:62-76 | a new chain satisfies the invariant |
| NodeSpec.HandleKeepsInv | full_node/full_node.go:162-245 | an accepted block keeps the tree, cached ledgers and tail rule; tailChange is true exactly when the tail moves; an error changes nothing |
| Verdicts.HeaderExactly | full_node/full_node.go:172-184 | the header of a block passes exactly if the block can be encoded, carries its own hex digest, and the digest is below 2^(256 - d) |
| Verdicts.HeldBlocksMeetTarget | full_node/full_node.go:172-184 | so it is for every block but genesis in every reachable state |
| Verdicts.HeaderAnswers | full_node/full_node.go:167-184 | which error a block gets for being held, not encodable, above the target, or under another hash |
| Verdicts.PlaceAnswers | full_node/full_node.go:186-200 | to a new block with right work: no parent exactly if it is not held, too deep exactly if it is more than the confirmation depth below the tail |
| Verdicts.BodyAnswers | full_node/full_node.go:203-221 | to a block that has its place: how fee, coinbase and transactions decide on the parent's ledger, and in which order |
| Verdicts.OutOfSyncExactly | full_node/full_node.go:186-200 | out of sync is reported exactly for a new block with right work whose parent is not held; it is not accepted and nothing changes |
| Verdicts.BehindIsTold | full_node/full_node.go:186-200 | of a peer's blocks, out of sync is reported exactly for those a node lacks together with their parents |
| Verdicts.NewBlockTells | full_node/full_node.go:186-200 | a node that lacks a block just accepted by a peer, and its parent, is told so |
| Verdicts.PoolAfterBlock | full_node/full_node.go:239-242 | an accepted block takes exactly its transactions out of the pool, whatever branch it is on; a refused one none |
| Verdicts.PoolAfterTx | full_node/full_node.go:55-71 | a known id leaves the pool alone, a new one joins it, removal is by id, and the chain is not touched |
| NodeSpec.RunKeepsInv | full_node/full_node.go:162-245 | after any steps: parents one level below down to genesis, valid content, tail the first block accepted at the greatest height, and no accepted block ever changed |
| NodeSpec.CachedLedgerIsReplay | full_node/full_node.go:203-234 | in every reachable state a block's cached ledger is the replay of its branch from genesis, for ever |
| Agreement.ChainHex | utils/transaction_utils.go:100-107 | in every reachable state all hashes of accepted blocks and keys of cached ledgers are lower-case hex |
| Agreement.SharedHash | full_node/full_node.go:178-184 | what two nodes hold under one hash has the same content exactly if it has the same shape |
| Agreement.NodesAgree | full_node/full_node.go:203-234 | two nodes agree on content, path, height and ledger of every shared hash, whatever order blocks arrived in, exactly if what they hold under one hash has one shape |
| Agreement.NodesAgreeOn | full_node/full_node.go:203-234 | likewise on the hashes of any part of the tree that goes down to genesis |
| Agreement.MergedBlockAccepted | utils/transaction_utils.go:33-63 | a block, and the block with the last two outputs of its transaction run together, have one hash; both are accepted exactly if the last output is worth no more than the coinbase leaves unclaimed |
| Agreement.MergedBlockSplitsNodes | full_node/full_node.go:178-234 | two nodes that take the one and the other hold one hash with two ledgers, though any digest separates what they hold |
| Agreement.MergedNodeNeverFollows | full_node/full_node_server.go:194-206 | whatever it receives and does later, the node with the merged block refuses a block on top that spends the output run together, and never holds it |
| Agreement.MergedNodeStaysBehind | full_node/full_node.go:203-208 | at first it says that an input is spent, where the other node accepts the block |
| Agreement.DigestSeparatesBlocks | full_node/full_node.go:178-184 | a digest that separates the bytes of two valid blocks of one shape separates the blocks |
| NodeSpec.WindowIsBranchSuffix | full_node/full_node.go:248-278 | the answer to a sync request is the start of the longest chain above the given hash, and synced says whether that was all |
| Safety.SupplyBound | full_node/full_node.go:203-221 | on every branch of every reachable state the positive outputs at height h add up to at most h rewards |
| Safety.ClaimingFees | full_node/full_node.go:210-214 | reward plus fee is accepted exactly when no fee was paid |
| Safety.SpendsAreSigned | utils/transaction_utils.go:100-133 | along every branch of every reachable state, each claimed output was in the ledger, its key verifies the signature over the bytes of the input and of all outputs, and the id is the digest of the content |
| Safety.IdsDistinctExactly | utils/transaction_utils.go:100-107 | along every branch no transaction id repeats exactly if transactions that claim nothing have ids of their own and equal ids mean equal shape; if only coinbases claim nothing, the first is that coinbase ids are distinct |
| Safety.ConsumedAgain | utils/ledger_utils.go:34-51 | along every branch, whatever its ids, an output that is consumed again, or is consumed and unspent, was stored again after it was consumed |
| Safety.NoDoubleSpend | utils/transaction_utils.go:110-140 | along every branch on which no id repeats, no output is consumed twice or before it is created, and none consumed is in the ledger |
| Safety.CoinbaseTakesId | utils/transaction_utils.go:211-232 | a coinbase whose output reads as the inputs and outputs of another transaction has its id, and its block is accepted exactly up to the reward; coinbase ids stay distinct |
| Safety.HeightsSeparateCoinbases | utils/transaction_utils.go:237-248 | coinbases that carry their height have distinct ids, whatever their shape, if equal digests come from equal bytes |
| Safety.BranchConserves | utils/ledger_utils.go:34-51 | the ledger of every block totals exactly what its branch put in minus what it took out minus what it overwrote, which is nothing where no id repeats |
| Safety.RepeatedCoinbaseOverwrites | utils/ledger_utils.go:42-50 | a block that repeats the coinbase of the tail is accepted; its branch issues the value again and the ledger stays as it was |
| Safety.DigestSeparatesTxs | utils/transaction_utils.go:100-107 | a digest that separates the bytes of two transactions of one shape separates the transactions |
| Finality.FinalForever | full_node/full_node.go:194-200 | once every block within the confirmation depth of the tail descends from x, x stays on the longest chain for ever |
| Finality.LiveForkTakesOver | full_node/full_node.go:194-238 | enough valid blocks on a live fork take the tail away from x, however deep x is |
| Finality.NoForksAtDepthZero | full_node/full_node.go:194-200 | with confirmation depth 0 every accepted block is on the longest chain, for ever |
| Finality.BuriedBlockLeaves | full_node/full_node.go:194-200 | with any other depth, two valid branches of length n arriving in turn leave the first block of one at depth n - 1 on the longest chain and the tip of the other live; one more block takes the longest chain away |
| Node.FullNode.constructor | full_node/full_node.go:37-48 | a new node is in the initial state |
| Node.FullNode.AddTransactionToPool | full_node/full_node.go:55-64 | adds a new hash, refuses a known one |
| Node.FullNode.RemoveTransactionFromPool | full_node/full_node.go:66-71 | removes by hash, changes nothing else |
| Node.FullNode.GetHeight | full_node/full_node.go:118-122 | the height of the tail in the state |
| Node.FullNode.GetTail | full_node/full_node.go:125-129 | the wrapper of the tail in the state |
| Node.FullNode.GetLedgerSnapshotAtDepth | full_node/full_node.go:74-87 | a fresh copy of the ledger that many blocks below the tail, or of genesis |
| Node.FullNode.GetUtxoForPublicKey | full_node/full_node.go:134-143 | exactly the entries of the confirmed ledger whose key is the one asked for |
| Ownership.ServedOutputs | full_node/full_node.go:134-143 | answers for different keys share no entry and every entry is in the answer for its own key |
| Ownership.KeyBalance | utils/ledger_utils.go:34-51 | a transaction with a new id changes the total of every key by what its outputs pay to it less what its inputs take from it |
| Node.FullNode.HandleNewBlock | full_node/full_node.go:162-245 | the method over wrappers, index and pool is one step of the machine and keeps parent and child pointers mutually inverse; out of sync is reported exactly for a new block with right work and no parent |
| Node.FullNode.ValidateBlock | full_node/full_node.go:167-221 | the checks in their order, on a copy: the node is untouched and the copy ends as the block's ledger |
| Node.FullNode.AddBlock | full_node/full_node.go:223-242 | linking, index, tail and pool updates together |
| Node.FullNode.GetBlocks | full_node/full_node.go:248-278 | the pointer walk with its bounded deque gives the window of the longest chain |
| Mining.GetAllTxsInPool | utils/transaction_utils.go:252-258 | every transaction of the pool once, in some order |
| Mining.CreateNewBlock | utils/blockchain_utils.go:17-39 | exactly when a block is made and how the attempt ends otherwise: a failed batch with exactly the failed transactions, the fatal branch, a panic or the command; a block made passes every check of the validator on its ledger |
| Mining.MakeExactly | utils/blockchain_utils.go:17-39 | a block is made exactly if the transactions succeed in turn, the draft exists and some nounce in time brings its digest below the target; the process ends exactly if they succeed in turn but have no fee at the start |
| Mining.DraftExactly | utils/blockchain_utils.go:25-35 | the draft exists exactly if there is a fee and the height can be encoded; it holds the transactions on the parent and pays reward and fee to the miner |
| Mining.MinedBlockAccepted | full_node/full_node_server.go:151-167 | after any other steps the block is accepted unless its hash is in the chain or its parent too deep |
| Mining.OneCleanupIsEnough | full_node/full_node.go:105-112 | with the failed transactions removed the next attempt succeeds in any order with the same ledger |
| Mining.FailingRoundShrinksPool | full_node/full_node.go:105-112 | a failing round takes at least one transaction out of the pool |
| Mining.TakeSnapshot | full_node/full_node.go:95-101 | a copy of the tail's ledger, the tail's hash, and every transaction of the pool once |
| Mining.CreateNodeBlock | full_node/full_node.go:93-115 | whatever other steps happen during the work: exactly when a mining attempt on the tail's ledger makes a block and how it ends otherwise; of what those steps leave, it takes the failed transactions out of the pool and changes nothing else |
| Mining.CleanUpExactly | full_node/full_node.go:105-112 | of what other steps leave in the pool, a mining attempt takes out exactly what failed in it, and changes nothing else |
| Sync.NextBlockAccepted | full_node/full_node.go:162-245 | the block above the client's tail on a peer's longest chain is always acceptable |
| Sync.RoundAdvances | full_node/full_node_server.go:194-206 | every block of an answer is accepted in order and the tail climbs min(5, remaining) |
| Sync.RoundsIsCeiling | full_node/full_node_server.go:183-210 | the rounds needed are max(1, ceil(gap/5)) |
| Sync.SetBlockInternal | full_node/full_node_server.go:366-391 | handles the block and sends it to every peer exactly if accepted and asked to |
| Sync.SyncToLatest | full_node/full_node_server.go:170-219 | from a tail on the peers' longest chain, where what the client holds under a hash of that chain has the shape of what they hold, ends after the rounds needed with the peers' tail, chain, height and ledger |
| Alarm.FullNodeServer.constructor | full_node/full_node_server.go:457-466 | a new server does not sync and has counted nothing |
| Alarm.FullNodeServer.SetBlock | full_node/full_node_server.go:337-363 | sends on an accepted block, counts one without a parent unless syncing, asks to sync from the confirmation depth on, asks to mine anew if the tail moved and that is wanted |
| Alarm.FullNodeServer.SyncToLatest | full_node/full_node_server.go:170-219 | with peers it ends in sync with both fields set back; without, it leaves the server marked as syncing |
| Alarm.CountIsMisses | full_node/full_node_server.go:60-64 | between two syncs the count is the number of blocks that came without a parent; accepted ones do not lower it |
| Alarm.BehindServerAsks | full_node/full_node_server.go:340-351 | while blocks of a peer come in that a node lacks together with their parents it stays as it is, and asks to sync exactly from the one with the number of the confirmation depth on |
| Alarm.FailedSyncSilences | full_node/full_node_server.go:173-177 | after a sync that fails the server counts nothing and never asks again until one ends well |
| Server.MineOne | full_node/full_node_server.go:151-167 | with any steps of others before the snapshot, during the work and before the block is set: how the attempt ends, that a block made is in the chain one above the snapshot's tail and sent to every peer unless its hash is held or its parent too deep by then, and that nothing else changes |
| Server.SetTransaction | full_node/full_node_server.go:100-130 | only a transaction that is valid on the ledger of the tail is added to the pool and sent on, whatever other steps come before it is added; others are dropped without an error |
| Server.CoinbaseHeightLags | full_node/full_node_server.go:151-155 | the height in an accepted mined coinbase is at most the block's, and equal exactly if the tail did not climb between reading it and the snapshot |
| Gossip.World.BroadcastBounds | full_node/full_node_server.go:366-391 | in every run no node broadcasts the block twice, and deliveries are at most one more than peer links |
| Gossip.World.QuiescentCoverage | full_node/full_node_server.go:366-391 | with nothing pending, every node reachable through broadcasting nodes was offered the block and holds or refused it |
| Gossip.World.GossipExactly | full_node/full_node_server.go:366-391 | for the block alone: offered are exactly the nodes reachable through accepting nodes, and holders exactly the old ones and the accepting reached ones |
| Probe.Graph.GetNode | visualize/visualize.go:120-129 | one node per address, made on first use; the first becomes the root |
| Probe.Graph.AddPeer | visualize/visualize.go:80-82 | appends one peer to one node and changes no other |
| Probe.ProbNetwork | full_node/cmd/main.go:165-191 | ends; the graph has exactly the addresses reachable through answering nodes, each with exactly its introductions as peers in order |
| Wallet.CreatePendingTransaction | utils/transaction_utils.go:265-316 | a transfer is built exactly if every output of the wallet can be named and signed for; it claims every output once, pays the requested outputs and the change, and is rightly hashed and signed |
| Wallet.SignedIsEncodable | utils/transaction_utils.go:309-312 | the return of an empty transaction without an error is never taken |
| Wallet.TransferValid | utils/transaction_utils.go:96-155 | it is valid at the node exactly if the values are non-negative and within the balance, and then pays no fee |
| Wallet.ServedCanBeSpent | full_node/full_node.go:134-143 | given what a node serves for its key, a wallet owns it on that ledger, and its transfer is valid there exactly if no value is negative and they are within the total of the key |
| Wallet.ServedThenSpent | utils/transaction_utils.go:96-155 | on another ledger, with the same entries where it has them, the transfer is valid exactly if moreover all of them are there |
| Wallet.TransferPays | utils/transaction_utils.go:286-290 | a transfer with a new id takes from the wallet exactly what goes to other keys, the change coming back, and every other key gains exactly what was asked for it |
| Witness.FatalFeeBranchHappens | utils/blockchain_utils.go:25-29 | a run in which each transaction is valid when it is put into the pool, after which the pool holds a batch of two that succeeds and ends the process whenever it is mined |
| Witness.FeesCannotBeClaimed | full_node/full_node.go:145-152 | in a reachable state, with half a coin of fee, a rightly hashed coinbase is accepted exactly up to half a coin below the reward |
| Witness.MergedBlockHappens | full_node/full_node.go:178-234 | two new nodes that accept the same first block and then one of two blocks with one hash hold different ledgers under it |
| Witness.CoinbaseTakesIdHappens | utils/transaction_utils.go:211-232 | three accepted blocks on whose branch a coinbase and a transfer have one id |
| Witness.RepeatedCoinbaseHappens | utils/ledger_utils.go:42-50 | two accepted blocks with one coinbase issue two coins and leave one |
| Witness.BuriedBlockLeavesHappens | full_node/full_node.go:194-200 | for confirmation depths 1 to 57, a reachable state in which a block deeper than that is on the longest chain, and the block that takes the chain away |

## Left out

- gRPC transport, dialing, timeouts, retries, peer-list changes: an RPC is a message or a call on another node.
- Peers that are not ready; sync from a tail that is off the peers' longest chain, which has no progress guarantee.
- Sync.SyncToLatest: peers do not change during the loop and hold the same blocks on their longest chains; forks and
  pools may differ.
- Gossip.World.GossipExactly: deliveries are asynchronous messages that are never lost; the program sends them as
  nested calls with a timeout.
- The command channel: a command sent is a value returned; that the sender can block is not modelled.
- GetBalance and the command loop: they chain methods modelled here.
- Mining.CreateNodeBlock: other steps happen during the work, not between the removals of failed transactions.
- Blocks and transactions are values, so aliasing of their pointers between messages, pool and tree is not modelled;
  neither are nil transactions and coinbases.
- Signing is a function of the message; the randomness of the signature scheme is not modelled.
- RSA, SHA-256, PEM, X.509, key files, float64 rounding and NaN, generated protobuf code, GUI, configuration files,
  rendering.

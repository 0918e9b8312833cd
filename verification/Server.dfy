/** The server around a node: mining one block and setting it, and taking in a transaction. */
module Server {
  import opened LedgerSpec
  import opened Mining
  import opened NodeSpec
  import opened Types
  import LedgerOps
  import Node
  import Sync

  /** The height written into a coinbase is read before the snapshot the block is built on, and other steps can
      come in between. Once the block is accepted its height is at least the one written, and equal to it exactly
      if the tail did not climb between the two readings. */
  lemma CoinbaseHeightLags(c: Crypto, cfg: Config, s: NodeState, between: seq<Step>, after: seq<Step>, b: Block)
    requires Inv(c, cfg, s)
    requires b.coinbase.height == s.chain[s.tail].height + 1
    requires b.prevHash == Run(c, cfg, s, between).tail
    requires Check(c, cfg, Run(c, cfg, Run(c, cfg, s, between), after), b) == None
    ensures var snapshot := Run(c, cfg, s, between);
      var t := Handle(c, cfg, Run(c, cfg, snapshot, after), b).0;
      && b.hash in t.chain
      && b.coinbase.height <= t.chain[b.hash].height
      && (b.coinbase.height == t.chain[b.hash].height <==>
            snapshot.chain[snapshot.tail].height == s.chain[s.tail].height)
  {
    RunKeepsInv(c, cfg, s, between);
    RunKeepsInv(c, cfg, Run(c, cfg, s, between), after);
  }

  /** The block, mined on the tail of `s`, is in the chain one above it and pays the miner; it is the tail unless the
      tail was as high already in state `t`, when it arrived, and so it always is if nothing came in between. */
  ghost predicate Placed(s: NodeState, t: NodeState, t': NodeState, b: Block, pk: seq<byte>) {
    && s.tail in s.chain && t.tail in t.chain && b.hash in t'.chain
    && b.hash !in t.chain && b.prevHash == s.tail
    && t'.chain[b.hash].block == b && t'.chain[b.hash].height == s.chain[s.tail].height + 1
    && t'.tail == (if t.chain[t.tail].height <= s.chain[s.tail].height then b.hash else t.tail)
    && |b.coinbase.outputs| == 1 && b.coinbase.outputs[0].publicKey == pk
  }

  /** Why a block mined on the tail of `s` is turned down in the later state `t`. */
  ghost function LateVerdict(cfg: Config, s: NodeState, t: NodeState, b: Block): Option<Error>
    requires s.tail in s.chain && t.tail in t.chain
  {
    if b.hash in t.chain then Some(BlockExists)
    else if t.chain[t.tail].height - s.chain[s.tail].height > cfg.confirmation then Some(ParentTooDeep)
    else None
  }

  /** When the steps of others happen while a node mines one block: before its snapshot, during the work, and before
      it sets the block. */
  datatype Others = Others(before: seq<Step>, during: seq<Step>, after: seq<Step>)

  /** Mine a block and set it, whatever happens in between. `s` is the state of the snapshot and `t` the one in which
      the block is set. A block is made or not as it must be in `s`, with the height of the tail at the start in its
      coinbase; it is accepted in `t`, and sent to every peer, unless its hash is held or its parent is too deep by
      then; and nothing but the steps of others and the pool change otherwise. */
  method MineOne(f: Node.FullNode, peers: seq<string>, interruptAt: Option<int>, others: Others)
    returns (sent: seq<string>, err: Option<Error>, ghost b: Block, ghost txs: seq<Transaction>,
             ghost attempt: Option<Error>, ghost s: NodeState, ghost t: NodeState)
    requires f.Valid()
    modifies f.Repr
    ensures f.Valid() && old(f.State).tail in old(f.State).chain
    ensures s == Run(f.crypto, f.config, old(f.State), others.before) && Enumerates(txs, s.pool)
    ensures attempt == MakeVerdict(f.crypto, f.config, s.tail, txs, old(f.State).chain[old(f.State).tail].height + 1,
                                   f.publicKey, s.chain[s.tail].ledger, interruptAt)
    ensures s.tail in s.chain
    ensures t == Run(f.crypto, f.config, AfterWork(f.crypto, f.config, s, txs, others.during), others.after)
    ensures attempt.None? ==>
      && t == Run(f.crypto, f.config, s, others.during + others.after)
      && b.coinbase.height == old(f.State).chain[old(f.State).tail].height + 1
    ensures t.tail in t.chain && err == if attempt.Some? then attempt else LateVerdict(f.config, s, t, b)
    ensures err.None? ==> sent == peers && Placed(s, t, f.State, b, f.publicKey)
    ensures err.Some? ==> sent == [] && f.State == t
  {
    var height := f.GetHeight() + 1;
    TakeSteps(f, others.before);
    s := f.State;
    sent, err, b, txs, attempt, t := MineFrom(f, peers, height, interruptAt, others);
  }

  /** The same from the snapshot on. */
  method MineFrom(f: Node.FullNode, peers: seq<string>, height: int, interruptAt: Option<int>, others: Others)
    returns (sent: seq<string>, err: Option<Error>, ghost b: Block, ghost txs: seq<Transaction>,
             ghost attempt: Option<Error>, ghost t: NodeState)
    requires f.Valid()
    modifies f.Repr
    ensures f.Valid() && old(f.State).tail in old(f.State).chain && t.tail in t.chain
    ensures Enumerates(txs, old(f.State).pool)
    ensures var s := old(f.State);
      attempt == MakeVerdict(
        f.crypto, f.config, s.tail, txs, height, f.publicKey, s.chain[s.tail].ledger, interruptAt)
    ensures t == Run(f.crypto, f.config, AfterWork(f.crypto, f.config, old(f.State), txs, others.during), others.after)
    ensures attempt.None? ==>
      t == Run(f.crypto, f.config, old(f.State), others.during + others.after) && b.coinbase.height == height
    ensures err == if attempt.Some? then attempt else LateVerdict(f.config, old(f.State), t, b)
    ensures err.None? ==> sent == peers && Placed(old(f.State), t, f.State, b, f.publicKey)
    ensures err.Some? ==> sent == [] && f.State == t
  {
    ghost var s := f.State;
    var block;
    block, err, txs := MineMeanwhile(f, height, interruptAt, others);
    b, attempt, t := block, err, f.State;
    ghost var listed := Enumerates(txs, s.pool);
    assert listed;
    sent, err := SetAttempt(f, peers, block, err, s, others.during + others.after, txs, height);
  }

  /** The attempt, and the steps of others until the block is set. */
  method MineMeanwhile(f: Node.FullNode, height: int, interruptAt: Option<int>, others: Others)
    returns (block: Block, attempt: Option<Error>, ghost txs: seq<Transaction>)
    requires f.Valid()
    modifies f.Repr
    ensures f.Valid() && forall o :: o in f.Repr && o !in old(f.Repr) ==> fresh(o)
    ensures Enumerates(txs, old(f.State).pool) && old(f.State).tail in old(f.State).chain
    ensures var s := old(f.State);
      attempt == MakeVerdict(
        f.crypto, f.config, s.tail, txs, height, f.publicKey, s.chain[s.tail].ledger, interruptAt)
    ensures f.State ==
      Run(f.crypto, f.config, AfterWork(f.crypto, f.config, old(f.State), txs, others.during), others.after)
    ensures attempt.None? ==>
      && MinedOn(f.crypto, f.config, old(f.State), block, txs, height, f.publicKey) && block.coinbase.height == height
      && f.State == Run(f.crypto, f.config, old(f.State), others.during + others.after)
  {
    ghost var s := f.State;
    block, attempt, txs := CreateNodeBlock(f, height, interruptAt, others.during);
    ghost var listed := Enumerates(txs, s.pool);
    assert listed;
    TakeSteps(f, others.after);
    if attempt.None? {
      NothingFailed(f.crypto, f.config, s, txs, others);
    }
  }

  /** An attempt that makes a block takes nothing out of the pool. */
  lemma NothingFailed(c: Crypto, cfg: Config, s: NodeState, txs: seq<Transaction>, others: Others)
    requires s.tail in s.chain && Replay(c, txs, s.chain[s.tail].ledger).failed == []
    ensures Run(c, cfg, AfterWork(c, cfg, s, txs, others.during), others.after) ==
      Run(c, cfg, s, others.during + others.after)
  {
    var u := Run(c, cfg, s, others.during);
    assert WithoutTxs(u.pool, []) == u.pool;
    RunConcat(c, cfg, s, others.during, others.after);
  }

  /** Set the block of an attempt that succeeded on the tail of `s`, after the given steps, and broadcast it. */
  method SetAttempt(f: Node.FullNode, peers: seq<string>, b: Block, attempt: Option<Error>, ghost s: NodeState,
                    ghost steps: seq<Step>, ghost txs: seq<Transaction>, ghost height: int)
    returns (sent: seq<string>, err: Option<Error>)
    requires f.Valid() && s.tail in s.chain && f.State.tail in f.State.chain
    requires attempt.None? ==>
      && Inv(f.crypto, f.config, s) && f.State == Run(f.crypto, f.config, s, steps)
      && MinedOn(f.crypto, f.config, s, b, txs, height, f.publicKey)
    modifies f.Repr
    ensures f.Valid()
    ensures err == if attempt.Some? then attempt else LateVerdict(f.config, s, old(f.State), b)
    ensures err.None? ==> sent == peers && Placed(s, old(f.State), f.State, b, f.publicKey)
    ensures err.Some? ==> sent == [] && f.State == old(f.State)
  {
    if attempt.Some? {
      return [], attempt;
    }
    MinedBlockAccepted(f.crypto, f.config, s, steps, b);
    RunKeepsInv(f.crypto, f.config, s, steps);
    var tailChange, outOfSync;
    sent, tailChange, outOfSync, err := Sync.SetBlockInternal(f, peers, b, true);
  }

  /** Check a transaction against the ledger of the tail and add it to the pool. The steps of `others` happen between
      the two. A transaction turned down is dropped without an error. */
  method SetTransaction(f: Node.FullNode, peers: seq<string>, tx: Transaction, others: seq<Step>)
    returns (sent: seq<string>, err: Option<Error>)
    requires f.Valid()
    modifies f.Repr
    ensures f.Valid() && old(f.State).tail in old(f.State).chain
    ensures var s, t := old(f.State), Run(f.crypto, f.config, old(f.State), others);
      var valid := ValidTx(f.crypto, tx, s.chain[s.tail].ledger);
      && f.State == (if valid then Next(f.crypto, f.config, t, AddTx(tx)) else t)
      && err == (if valid && tx.hash in t.pool then Some(TxExists) else None)
      && sent == (if valid && err.None? then peers else [])
  {
    var valid := CheckAtTail(f, tx);
    TakeSteps(f, others);
    if !valid {
      return [], None;
    }
    err := f.AddTransactionToPool(tx);
    if err.Some? {
      return [], err;
    }
    sent := Sync.Broadcast(peers);
  }

  method CheckAtTail(f: Node.FullNode, tx: Transaction) returns (valid: bool)
    requires f.Valid()
    ensures f.State.tail in f.State.chain && valid == ValidTx(f.crypto, tx, f.State.chain[f.State.tail].ledger)
  {
    var l := f.GetLedgerSnapshotAtDepth(0);
    var err := LedgerOps.IsValidTransaction(f.crypto, tx, l);
    return err.None?;
  }

  /** A run in which every transaction put into the pool is valid on the ledger of the tail at that moment. */
  ghost predicate Served(c: Crypto, cfg: Config, s: NodeState, steps: seq<Step>)
    requires s.tail in s.chain
    decreases |steps|
  {
    steps == [] ||
    (&& (steps[0].AddTx? ==> ValidTx(c, steps[0].tx, s.chain[s.tail].ledger))
     && Served(c, cfg, Next(c, cfg, s, steps[0]), steps[1..]))
  }
}

/** Building a block from the pool: what the producer makes passes the validator, also after other steps. */
module Mining {
  import opened LedgerSpec
  import opened NodeSpec
  import opened Types
  import Difficulty
  import Encoding
  import LedgerOps
  import Node

  /** `txs` lists the pool, in some order. */
  ghost predicate Enumerates(txs: seq<Transaction>, pool: map<Hash, Transaction>) {
    && DistinctIds(txs)
    && (forall t :: t in txs <==> t.hash in pool && pool[t.hash] == t)
  }

  /** The pool is a Go map: any order of its transactions can come out. */
  method GetAllTxsInPool(pool: map<Hash, Transaction>) returns (txs: seq<Transaction>)
    requires forall h :: h in pool ==> pool[h].hash == h
    ensures Enumerates(txs, pool)
  {
    txs := [];
    var todo := pool.Keys;
    while todo != {}
      invariant todo <= pool.Keys
      invariant DistinctIds(txs)
      invariant forall t :: t in txs <==> t.hash in pool && t.hash !in todo && pool[t.hash] == t
      decreases todo
    {
      var h :| h in todo;
      forall i | 0 <= i < |txs|
        ensures txs[i].hash != h
      {
        assert txs[i] in txs;
      }
      txs := txs + [pool[h]];
      todo := todo - {h};
    }
  }

  /** Block `b` holds exactly these transactions, pays the whole reward and fee to `pk`, and its body passes
      the validator on ledger `l`. */
  ghost predicate Template(c: Crypto, cfg: Config, b: Block, prevHash: Hash, txs: seq<Transaction>,
                           height: int, pk: seq<byte>, l: Utxos)
  {
    && b.prevHash == prevHash && b.txs == txs
    && Fee(txs, l).Ok?
    && b.coinbase.outputs == [Output(cfg.reward + Fee(txs, l).value, pk)]
    && b.coinbase.height == height
    && BodyVerdict(c, cfg, b, l) == None
  }

  /** The same with the work done: it passes every check. */
  ghost predicate Produced(c: Crypto, cfg: Config, b: Block, prevHash: Hash, txs: seq<Transaction>,
                           height: int, pk: seq<byte>, l: Utxos)
  {
    Template(c, cfg, b, prevHash, txs, height, pk, l) && HeaderOk(c, cfg, b)
  }

  lemma TemplateFrom(c: Crypto, cfg: Config, b: Block, prevHash: Hash, txs: seq<Transaction>,
                     pk: seq<byte>, l: Utxos, fee: real)
    requires Fee(txs, l) == Ok(fee) && Replay(c, txs, l).failed == []
    requires b.prevHash == prevHash && b.txs == txs
    requires b.coinbase.outputs == [Output(cfg.reward + fee, pk)]
    requires CoinbaseOk(c, b.coinbase, fee + cfg.reward)
    ensures Template(c, cfg, b, prevHash, txs, b.coinbase.height, pk, l)
  {
  }

  /** The block before the work: its fee must be defined and its coinbase encodable. */
  ghost function Draft(c: Crypto, cfg: Config, prevHash: Hash, txs: seq<Transaction>,
                       height: int, pk: seq<byte>, l: Utxos): Result<Block>
  {
    var fee :- Fee(txs, l);
    var coinbase :- CoinbaseTx(c, cfg.reward + fee, pk, height);
    Ok(Block("", prevHash, txs, coinbase, 0))
  }

  /** How an attempt to make a block from a batch ends: every transaction must succeed, the fee be defined on the
      same ledger, the coinbase be encodable, and the work have a result before a command arrives. */
  ghost function MakeVerdict(c: Crypto, cfg: Config, prevHash: Hash, txs: seq<Transaction>,
                             height: int, pk: seq<byte>, l: Utxos, interruptAt: Option<int>): Option<Error>
  {
    if Replay(c, txs, l).failed != [] then Some(BatchInvalid)
    else WorkVerdict(c, cfg, Draft(c, cfg, prevHash, txs, height, pk, l), Fee(txs, l).Ok?, interruptAt)
  }

  ghost function WorkVerdict(c: Crypto, cfg: Config, draft: Result<Block>, hasFee: bool, interruptAt: Option<int>)
    : Option<Error>
  {
    if !hasFee then Some(Fatal)
    else if draft.Err? then Some(Panic)
    else Difficulty.MineVerdict(c, draft.value, cfg.difficulty, interruptAt)
  }

  /** The draft exists exactly if there is a fee and the height can be encoded. It holds the transactions on the given
      parent and pays reward and fee to the key. */
  lemma DraftExactly(c: Crypto, cfg: Config, prevHash: Hash, txs: seq<Transaction>, height: int, pk: seq<byte>,
                     l: Utxos)
    ensures var r := Draft(c, cfg, prevHash, txs, height, pk, l);
      && (r.Ok? <==> Fee(txs, l).Ok? && -0x80_0000_0000_0000 <= height < 0x80_0000_0000_0000)
      && (r.Ok? ==>
            && r.value == Block("", prevHash, txs, r.value.coinbase, 0)
            && r.value.coinbase.inputs == [] && r.value.coinbase.height == height
            && r.value.coinbase.outputs == [Output(cfg.reward + Fee(txs, l).value, pk)])
  {
    var fee := Fee(txs, l);
    if fee.Ok? {
      var value := cfg.reward + fee.value;
      var coinbase := CoinbaseTx(c, value, pk, height);
      CoinbaseTxValid(c, value, pk, height, value);
      if coinbase.Ok? {
        assert Draft(c, cfg, prevHash, txs, height, pk, l) == Ok(Block("", prevHash, txs, coinbase.value, 0));
      }
    }
  }

  /** Some nounce below 2^55 brings the digest of the block below the target before a command arrives. */
  ghost predicate Workable(c: Crypto, cfg: Config, b: Block, interruptAt: Option<int>)
    requires 0 <= cfg.difficulty < 256
  {
    exists i ::
      && 0 <= i < 0x80_0000_0000_0000 && (interruptAt.Some? ==> i < interruptAt.value)
      && Encoding.BlockBytes(c, b.(nounce := i)).Ok?
      && Difficulty.BigEndian(c.sha256(Encoding.BlockBytes(c, b.(nounce := i)).value)) <
         Encoding.Pow(2, 256 - cfg.difficulty)
  }

  lemma WorkExactly(c: Crypto, cfg: Config, b: Block, interruptAt: Option<int>)
    requires 0 <= cfg.difficulty < 256
    ensures var err := Difficulty.MineVerdict(c, b, cfg.difficulty, interruptAt);
      (err == None <==> Workable(c, cfg, b, interruptAt)) && err != Some(BatchInvalid) && err != Some(Fatal)
  {
    Difficulty.MineExactly(c, b, cfg.difficulty, interruptAt);
    if Difficulty.MineVerdict(c, b, cfg.difficulty, interruptAt) != None {
      Difficulty.MineEndings(c, b, cfg.difficulty, interruptAt);
    }
  }

  /** A block is made exactly if every transaction is valid in its turn, the draft exists, and it can be worked for.
      The process ends exactly for transactions that succeed in turn without a fee on the starting ledger. */
  lemma MakeExactly(c: Crypto, cfg: Config, prevHash: Hash, txs: seq<Transaction>,
                    height: int, pk: seq<byte>, l: Utxos, interruptAt: Option<int>)
    requires 0 <= cfg.difficulty < 256
    ensures var err := MakeVerdict(c, cfg, prevHash, txs, height, pk, l, interruptAt);
      var draft := Draft(c, cfg, prevHash, txs, height, pk, l);
      && (err == Some(BatchInvalid) <==> Replay(c, txs, l).failed != [])
      && (err == Some(Fatal) <==> Replay(c, txs, l).failed == [] && !FeeDefined(txs, l))
      && (err == None <==>
            Replay(c, txs, l).failed == [] && draft.Ok? && Workable(c, cfg, draft.value, interruptAt))
  {
    FeeIsDefined(txs, l);
    var draft := Draft(c, cfg, prevHash, txs, height, pk, l);
    if draft.Ok? {
      WorkExactly(c, cfg, draft.value, interruptAt);
    }
  }

  /** The attempt ends as it must, and a block made passes the validator on the ledger it was made from. A batch
      with invalid transactions is returned with exactly those, and the process ends only for a batch that spends
      its own outputs. The ledger passed in is used up. */
  method CreateNewBlock(c: Crypto, cfg: Config, txs: seq<Transaction>, prevHash: Hash, height: int, pk: seq<byte>,
                        l: LedgerOps.Ledger, interruptAt: Option<int>)
    returns (block: Block, errTxs: seq<Transaction>, err: Option<Error>)
    modifies l
    ensures errTxs == Replay(c, txs, old(l.L)).failed
    ensures err == MakeVerdict(c, cfg, prevHash, txs, height, pk, old(l.L), interruptAt)
    ensures err.None? ==> Produced(c, cfg, block, prevHash, txs, height, pk, old(l.L))
    ensures err == Some(Fatal) ==> !NoIntraSpend(txs)
  {
    block := GENESIS;
    var origL := LedgerOps.GetLedgerDeepCopy(l);
    errTxs, err := LedgerOps.HandleTransactions(c, txs, l);
    if err.None? {
      block, err := FinishBlock(c, cfg, txs, prevHash, height, pk, origL, interruptAt);
    }
  }

  /** The fee on the original ledger, then the coinbase and the work. */
  method FinishBlock(c: Crypto, cfg: Config, txs: seq<Transaction>, prevHash: Hash, height: int, pk: seq<byte>,
                     origL: LedgerOps.Ledger, interruptAt: Option<int>)
    returns (block: Block, err: Option<Error>)
    requires Replay(c, txs, origL.L).failed == []
    ensures err == MakeVerdict(c, cfg, prevHash, txs, height, pk, origL.L, interruptAt)
    ensures err.None? ==> Produced(c, cfg, block, prevHash, txs, height, pk, origL.L)
    ensures err == Some(Fatal) ==> !NoIntraSpend(txs)
  {
    ghost var l := origL.L;
    var fee := LedgerOps.CalcTxFee(txs, origL);
    if fee.Err? {
      FatalNeedsIntraSpend(c, txs, l);
      return GENESIS, Some(Fatal);
    }
    block, err := MineBatch(c, cfg, txs, prevHash, height, pk, fee.value, interruptAt, l);
  }

  lemma FatalNeedsIntraSpend(c: Crypto, txs: seq<Transaction>, l: Utxos)
    requires Replay(c, txs, l).failed == [] && Fee(txs, l).Err?
    ensures !NoIntraSpend(txs)
  {
    if NoIntraSpend(txs) {
      FeeOfSuccessfulBatch(c, txs, l);
    }
  }

  /** The coinbase and the work on top of a batch whose fee is known. */
  method MineBatch(c: Crypto, cfg: Config, txs: seq<Transaction>, prevHash: Hash, height: int, pk: seq<byte>,
                   fee: real, interruptAt: Option<int>, ghost l: Utxos)
    returns (block: Block, err: Option<Error>)
    requires Fee(txs, l) == Ok(fee) && Replay(c, txs, l).failed == []
    ensures err == MakeVerdict(c, cfg, prevHash, txs, height, pk, l, interruptAt)
    ensures err != Some(Fatal)
    ensures err.None? ==> Produced(c, cfg, block, prevHash, txs, height, pk, l)
  {
    var draft := MakeDraft(c, cfg, txs, prevHash, height, pk, fee, l);
    if draft.Err? {
      return GENESIS, Some(Panic);
    }
    block, err := MineDraft(c, cfg, draft.value, pk, fee, interruptAt, l);
  }

  /** The block with its coinbase, before the work. */
  method MakeDraft(c: Crypto, cfg: Config, txs: seq<Transaction>, prevHash: Hash, height: int, pk: seq<byte>,
                   fee: real, ghost l: Utxos)
    returns (r: Result<Block>)
    requires Fee(txs, l) == Ok(fee)
    ensures r == Draft(c, cfg, prevHash, txs, height, pk, l)
    ensures r.Ok? ==>
      && r.value.prevHash == prevHash && r.value.txs == txs && r.value.coinbase.height == height
      && r.value.coinbase.outputs == [Output(cfg.reward + fee, pk)]
      && CoinbaseOk(c, r.value.coinbase, fee + cfg.reward)
  {
    CoinbaseTxValid(c, cfg.reward + fee, pk, height, fee + cfg.reward);
    var coinbase :- LedgerOps.CreateCoinbaseTx(c, cfg.reward + fee, pk, height);
    return Ok(Block("", prevHash, txs, coinbase, 0));
  }

  /** The work on a block that has its coinbase. */
  method MineDraft(c: Crypto, cfg: Config, draft: Block, pk: seq<byte>, ghost fee: real, interruptAt: Option<int>,
                   ghost l: Utxos)
    returns (block: Block, err: Option<Error>)
    requires Fee(draft.txs, l) == Ok(fee) && Replay(c, draft.txs, l).failed == []
    requires draft.coinbase.outputs == [Output(cfg.reward + fee, pk)]
    requires CoinbaseOk(c, draft.coinbase, fee + cfg.reward)
    ensures err == Difficulty.MineVerdict(c, draft, cfg.difficulty, interruptAt)
    ensures err.None? ==> Produced(c, cfg, block, draft.prevHash, draft.txs, draft.coinbase.height, pk, l)
  {
    block, err := Difficulty.Mine(c, draft, cfg.difficulty, interruptAt);
    if err.None? {
      TemplateFrom(c, cfg, block, draft.prevHash, draft.txs, pk, l, fee);
    }
  }

  /** A block mined on a snapshot of the tail is accepted after any other steps of the node, unless its
      hash got into the chain meanwhile or its parent is by then buried deeper than the confirmation depth. */
  lemma MinedBlockAccepted(c: Crypto, cfg: Config, s: NodeState, steps: seq<Step>, b: Block)
    requires Inv(c, cfg, s) && b.prevHash == s.tail
    requires HeaderOk(c, cfg, b) && BodyVerdict(c, cfg, b, s.chain[s.tail].ledger) == None
    ensures var t := Run(c, cfg, s, steps);
      && b.prevHash in t.chain
      && Check(c, cfg, t, b) ==
         if b.hash in t.chain then Some(BlockExists)
         else if t.chain[t.tail].height - t.chain[b.prevHash].height > cfg.confirmation then Some(ParentTooDeep)
         else None
  {
    RunKeepsInv(c, cfg, s, steps);
  }

  // ----- cleaning the pool -----

  lemma CleanedPool(c: Crypto, pool: map<Hash, Transaction>, txs: seq<Transaction>, l: Utxos)
    requires Enumerates(txs, pool)
    ensures Enumerates(Survivors(c, txs, l), WithoutTxs(pool, Replay(c, txs, l).failed))
  {
    var failed, survivors := Replay(c, txs, l).failed, Survivors(c, txs, l);
    var cleaned := WithoutTxs(pool, failed);
    SurvivorsOrFailed(c, txs, l);
    SurvivorsDistinct(c, txs, l);
    forall t
      ensures t in survivors <==> t.hash in cleaned && cleaned[t.hash] == t
    {
      if t in survivors {
        forall i | 0 <= i < |failed|
          ensures failed[i].hash != t.hash
        {
          assert failed[i] in failed;
        }
      }
      assert t.hash in cleaned ==> t !in failed;
    }
  }

  lemma SameEnumeration(txs: seq<Transaction>, again: seq<Transaction>, pool: map<Hash, Transaction>)
    requires Enumerates(txs, pool) && Enumerates(again, pool)
    ensures SameElements(txs, again)
  {
  }

  /** One cleanup is enough: with the failed transactions out of the pool, whatever order the pool gives
      next, on the same ledger every transaction succeeds and the ledger is the one the first attempt reached. */
  lemma OneCleanupIsEnough(
      c: Crypto, pool: map<Hash, Transaction>, txs: seq<Transaction>, again: seq<Transaction>, l: Utxos)
    requires Enumerates(txs, pool) && NoIntraSpend(txs)
    requires Enumerates(again, WithoutTxs(pool, Replay(c, txs, l).failed))
    ensures Replay(c, again, l) == Batch(Replay(c, txs, l).ledger, [])
    ensures Fee(again, l).Ok?
  {
    var survivors := Survivors(c, txs, l);
    CleanedPool(c, pool, txs, l);
    SameEnumeration(survivors, again, WithoutTxs(pool, Replay(c, txs, l).failed));
    SurvivorsOrFailed(c, txs, l);
    SubBatchNoIntraSpend(txs, survivors);
    SubBatchNoIntraSpend(txs, again);
    SurvivorsSucceed(c, txs, l);
    BatchOrderIndependent(c, survivors, again, l);
    FeeOfSuccessfulBatch(c, again, l);
  }

  /** Without that hypothesis too, a failing round takes at least one transaction out of the pool. */
  lemma FailingRoundShrinksPool(c: Crypto, pool: map<Hash, Transaction>, txs: seq<Transaction>, l: Utxos)
    requires Enumerates(txs, pool) && Replay(c, txs, l).failed != []
    ensures |WithoutTxs(pool, Replay(c, txs, l).failed)| < |pool|
  {
    var failed := Replay(c, txs, l).failed;
    var cleaned := WithoutTxs(pool, failed);
    SurvivorsOrFailed(c, txs, l);
    assert failed[0] in failed;
    var h := failed[0].hash;
    assert h in pool && h !in cleaned;
    assert cleaned.Keys <= pool.Keys - {h};
    SubsetSize(cleaned.Keys, pool.Keys - {h});
    assert |cleaned| == |cleaned.Keys| && |pool| == |pool.Keys|;
  }

  lemma {:induction false} SubsetSize(a: set<Hash>, b: set<Hash>)
    requires a <= b
    ensures |a| <= |b|
  {
    if a == {} {
    } else {
      var h :| h in a;
      SubsetSize(a - {h}, b - {h});
    }
  }

  /** The part under the read lock: a copy of the tail's ledger, the tail's hash, and the pool in some order. */
  method TakeSnapshot(f: Node.FullNode) returns (l: LedgerOps.Ledger, prevHash: Hash, batch: seq<Transaction>)
    requires f.Valid()
    ensures fresh(l) && prevHash == f.State.tail && prevHash in f.State.chain
    ensures l.L == f.State.chain[prevHash].ledger && Enumerates(batch, f.State.pool)
  {
    f.At(f.State.tail);
    l := f.GetLedgerSnapshotAtDepth(0);
    prevHash := f.blockchain.Tail.B.hash;
    batch := GetAllTxsInPool(f.txPool.TxPool);
  }

  /** The block is what mining `txs` on the tail of state `s` makes. */
  ghost predicate MinedOn(c: Crypto, cfg: Config, s: NodeState, b: Block, txs: seq<Transaction>, height: int,
                          pk: seq<byte>)
  {
    s.tail in s.chain && Produced(c, cfg, b, s.tail, txs, height, pk, s.chain[s.tail].ledger)
  }

  /** Steps of others: received blocks, transactions added to the pool and removed from it. */
  method TakeSteps(f: Node.FullNode, steps: seq<Step>)
    requires f.Valid()
    modifies f.Repr
    ensures f.Valid() && f.State == Run(f.crypto, f.config, old(f.State), steps)
    ensures forall o :: o in f.Repr && o !in old(f.Repr) ==> fresh(o)
  {
    for i := 0 to |steps|
      invariant f.Valid()
      invariant Run(f.crypto, f.config, f.State, steps[i..]) == Run(f.crypto, f.config, old(f.State), steps)
      invariant forall o :: o in f.Repr && o !in old(f.Repr) ==> fresh(o)
    {
      assert steps[i..][1..] == steps[i + 1..];
      TakeStep(f, steps[i]);
    }
  }

  method TakeStep(f: Node.FullNode, step: Step)
    requires f.Valid()
    modifies f.Repr
    ensures f.Valid() && f.State == Next(f.crypto, f.config, old(f.State), step)
    ensures forall o :: o in f.Repr && o !in old(f.Repr) ==> fresh(o)
  {
    match step
    case Receive(b) => var _, _, _ := f.HandleNewBlock(b);
    case AddTx(tx) => var _ := f.AddTransactionToPool(tx);
    case RemoveTx(tx) => f.RemoveTransactionFromPool(tx);
  }

  /** The state after the work on `txs` in state `s`: the steps of others, and the failed transactions removed. */
  ghost function AfterWork(c: Crypto, cfg: Config, s: NodeState, txs: seq<Transaction>, during: seq<Step>)
    : (t: NodeState)
    requires s.tail in s.chain
    ensures t.tail in t.chain
  {
    var u := Run(c, cfg, s, during);
    u.(pool := WithoutTxs(u.pool, Replay(c, txs, s.chain[s.tail].ledger).failed))
  }

  /** Of what the others leave in the pool, the attempt takes out exactly what failed in it. Nothing else changes. */
  lemma CleanUpExactly(c: Crypto, cfg: Config, s: NodeState, txs: seq<Transaction>, during: seq<Step>, h: Hash)
    requires Inv(c, cfg, s)
    ensures var u, t := Run(c, cfg, s, during), AfterWork(c, cfg, s, txs, during);
      var failed := Replay(c, txs, s.chain[s.tail].ledger).failed;
      && t == u.(pool := t.pool)
      && (h in t.pool <==> h in u.pool && forall tx :: tx in failed ==> tx.hash != h)
      && (h in t.pool ==> t.pool[h] == u.pool[h])
  {
  }

  /** One attempt of a node to mine: snapshot, work, and removal of the failed transactions. The steps of `others`
      happen during the work, which does not hold the lock. */
  method CreateNodeBlock(f: Node.FullNode, height: int, interruptAt: Option<int>, others: seq<Step>)
    returns (block: Block, err: Option<Error>, ghost txs: seq<Transaction>)
    requires f.Valid()
    modifies f.Repr
    ensures f.Valid() && forall o :: o in f.Repr && o !in old(f.Repr) ==> fresh(o)
    ensures Enumerates(txs, old(f.State).pool) && old(f.State).tail in old(f.State).chain
    ensures var s := old(f.State);
      err == MakeVerdict(
        f.crypto, f.config, s.tail, txs, height, f.publicKey, s.chain[s.tail].ledger, interruptAt)
    ensures f.State == AfterWork(f.crypto, f.config, old(f.State), txs, others)
    ensures err.None? ==> MinedOn(f.crypto, f.config, old(f.State), block, txs, height, f.publicKey)
  {
    var l, prevHash, batch := TakeSnapshot(f);
    txs := batch;
    ghost var listed := Enumerates(txs, f.State.pool);
    assert listed;
    TakeSteps(f, others);
    block, err := WorkAndCleanUp(f, batch, prevHash, height, l, interruptAt);
  }

  /** The work, and the removal of the failed transactions. */
  method WorkAndCleanUp(f: Node.FullNode, batch: seq<Transaction>, prevHash: Hash, height: int, l: LedgerOps.Ledger,
                        interruptAt: Option<int>)
    returns (block: Block, err: Option<Error>)
    requires f.Valid() && l !in f.Repr
    modifies f.Repr, l
    ensures f.Valid() && f.Repr == old(f.Repr)
    ensures err == MakeVerdict(f.crypto, f.config, prevHash, batch, height, f.publicKey, old(l.L), interruptAt)
    ensures f.State == old(f.State).(pool := WithoutTxs(old(f.State).pool, Replay(f.crypto, batch, old(l.L)).failed))
    ensures err.None? ==> Produced(f.crypto, f.config, block, prevHash, batch, height, f.publicKey, old(l.L))
  {
    var errTxs;
    block, errTxs, err := CreateNewBlock(f.crypto, f.config, batch, prevHash, height, f.publicKey, l, interruptAt);
    RemoveFromPool(f, errTxs);
  }

  method RemoveFromPool(f: Node.FullNode, errTxs: seq<Transaction>)
    requires f.Valid()
    modifies f, f.txPool
    ensures f.Valid() && f.Repr == old(f.Repr)
    ensures f.State == old(f.State).(pool := WithoutTxs(old(f.State).pool, errTxs))
  {
    ghost var s := f.State;
    for i := 0 to |errTxs|
      invariant f.Valid() && f.Repr == old(f.Repr)
      invariant f.State == s.(pool := WithoutTxs(s.pool, errTxs[..i]))
    {
      assert errTxs[..i + 1] == errTxs[..i] + [errTxs[i]];
      assert WithoutTxs(s.pool, errTxs[..i + 1]) == WithoutTxs(s.pool, errTxs[..i]) - {errTxs[i].hash};
      f.RemoveTransactionFromPool(errTxs[i]);
    }
    assert errTxs[..|errTxs|] == errTxs;
  }
}

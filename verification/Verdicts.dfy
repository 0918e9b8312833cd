/** What a node accepts and how it answers, in terms of bytes, digests, signatures and heights. */
module Verdicts {
  import opened Difficulty
  import opened Encoding
  import opened LedgerSpec
  import opened NodeSpec
  import opened Types
  import LedgerOps

  // ----- transactions -----

  /** Input `i` claims an unspent output that no earlier input claims, and its owner's key verifies the signature. */
  ghost predicate RightInput(c: Crypto, tx: Transaction, i: int, l: Utxos) {
    && 0 <= i < |tx.inputs| && Outpoint(tx.inputs[i]) in l
    && c.parseKey(l[Outpoint(tx.inputs[i])].publicKey).Some? && InputBytes(tx.inputs[i]).Ok?
    && c.verify(InputBytes(tx.inputs[i]).value + OutputsBytes(c, tx.outputs),
                c.parseKey(l[Outpoint(tx.inputs[i])].publicKey).value, tx.inputs[i].signature)
    && forall j :: 0 <= j < i ==> Outpoint(tx.inputs[j]) != Outpoint(tx.inputs[i])
  }

  lemma KeysBefore(inputs: seq<Input>, n: nat)
    requires n < |inputs|
    ensures Outpoint(inputs[n]) in Keys(inputs[..n]) <==>
      exists j :: 0 <= j < n && Outpoint(inputs[j]) == Outpoint(inputs[n])
  {
    assert forall j :: 0 <= j < n ==> inputs[..n][j] == inputs[j];
  }

  /** Inputs that are right are passed over. */
  lemma {:induction false} RightInputsPass(c: Crypto, tx: Transaction, l: Utxos, n: nat)
    requires n <= |tx.inputs| && forall i :: 0 <= i < n ==> RightInput(c, tx, i, l)
    ensures InputsVerdict(c, tx, 0, l) == InputsVerdict(c, tx, n, l)
  {
    if n == 0 {
    } else {
      RightInputsPass(c, tx, l, n - 1);
      assert RightInput(c, tx, n - 1, l);
      KeysBefore(tx.inputs, n - 1);
    }
  }

  /** A transaction that is not hashed rightly is turned down before its inputs are looked at. The first input that
      is not right says why. */
  lemma FirstFault(c: Crypto, tx: Transaction, l: Utxos, n: nat)
    requires TxBytes(c, tx, false).Ok? && n < |tx.inputs|
    requires forall i :: 0 <= i < n ==> RightInput(c, tx, i, l)
    ensures InputBytes(tx.inputs[n]).Ok?
    ensures var k := Outpoint(tx.inputs[n]);
      && (tx.hash != BytesToHex(c.sha256(TxBytes(c, tx, false).value)) ==> TxVerdict(c, tx, l) == Some(BadTxHash))
      && (tx.hash == BytesToHex(c.sha256(TxBytes(c, tx, false).value)) ==>
            && (k !in l ==> TxVerdict(c, tx, l) == Some(InputSpent))
            && (k in l && c.parseKey(l[k].publicKey) == None ==> TxVerdict(c, tx, l) == Some(BadPublicKey))
            && (k in l && c.parseKey(l[k].publicKey).Some? ==>
                  var message := InputBytes(tx.inputs[n]).value + OutputsBytes(c, tx.outputs);
                  var verified := c.verify(message, c.parseKey(l[k].publicKey).value, tx.inputs[n].signature);
                  && (!verified ==> TxVerdict(c, tx, l) == Some(BadSignature))
                  && (verified && (exists j :: 0 <= j < n && Outpoint(tx.inputs[j]) == k) ==>
                        TxVerdict(c, tx, l) == Some(DoubleSpend))))
  {
    LedgerOps.SignableInputs(c, tx, n);
    RightInputsPass(c, tx, l, n);
    KeysBefore(tx.inputs, n);
  }

  /** With every input right, the outputs decide. */
  lemma OutputsDecide(c: Crypto, tx: Transaction, l: Utxos)
    requires TxBytes(c, tx, false).Ok? && tx.hash == BytesToHex(c.sha256(TxBytes(c, tx, false).value))
    requires forall i :: 0 <= i < |tx.inputs| ==> RightInput(c, tx, i, l)
    ensures TxVerdict(c, tx, l) ==
      if exists i :: 0 <= i < |tx.outputs| && tx.outputs[i].value < 0.0 then Some(NegativeOutput)
      else if TotalOut(tx.outputs) > TotalIn(tx.inputs, l) then Some(OutputExceedsInput)
      else None
  {
    RightInputsPass(c, tx, l, |tx.inputs|);
  }

  /** What it takes to be valid. */
  lemma ValidExactly(c: Crypto, tx: Transaction, l: Utxos)
    ensures ValidTx(c, tx, l) <==>
      && TxBytes(c, tx, false).Ok? && tx.hash == BytesToHex(c.sha256(TxBytes(c, tx, false).value))
      && (forall i :: 0 <= i < |tx.inputs| ==> RightInput(c, tx, i, l))
      && (forall i :: 0 <= i < |tx.outputs| ==> 0.0 <= tx.outputs[i].value)
      && TotalOut(tx.outputs) <= TotalIn(tx.inputs, l)
  {
    if ValidTx(c, tx, l) {
      forall i | 0 <= i < |tx.inputs|
        ensures RightInput(c, tx, i, l)
      {
        assert Outpoint(tx.inputs[i]) in l && Signed(c, tx, i, l);
      }
    } else if forall i :: 0 <= i < |tx.inputs| ==> RightInput(c, tx, i, l) {
      forall i | 0 <= i < |tx.inputs|
        ensures Outpoint(tx.inputs[i]) in l && Signed(c, tx, i, l)
      {
        assert RightInput(c, tx, i, l);
      }
      assert Distinct(tx.inputs) by {
        forall i, j | 0 <= i < j < |tx.inputs|
          ensures Outpoint(tx.inputs[i]) != Outpoint(tx.inputs[j])
        {
          assert RightInput(c, tx, j, l);
        }
      }
    }
  }

  /** A transaction that is right in everything but perhaps its signatures is accepted exactly if all of them verify,
      and otherwise refused for a signature. */
  lemma SignaturesDecide(c: Crypto, tx: Transaction, l: Utxos)
    requires TxBytes(c, tx, false).Ok? && tx.hash == BytesToHex(c.sha256(TxBytes(c, tx, false).value))
    requires forall i :: 0 <= i < |tx.inputs| ==>
      Outpoint(tx.inputs[i]) in l && c.parseKey(l[Outpoint(tx.inputs[i])].publicKey).Some?
    requires forall i, j :: 0 <= i < j < |tx.inputs| ==> Outpoint(tx.inputs[i]) != Outpoint(tx.inputs[j])
    requires forall i :: 0 <= i < |tx.outputs| ==> 0.0 <= tx.outputs[i].value
    requires TotalOut(tx.outputs) <= TotalIn(tx.inputs, l)
    ensures forall i :: 0 <= i < |tx.inputs| ==> InputBytes(tx.inputs[i]).Ok?
    ensures var allVerify := forall i :: 0 <= i < |tx.inputs| ==>
        c.verify(InputBytes(tx.inputs[i]).value + OutputsBytes(c, tx.outputs),
                 c.parseKey(l[Outpoint(tx.inputs[i])].publicKey).value, tx.inputs[i].signature);
      && TxVerdict(c, tx, l) == (if allVerify then None else Some(BadSignature))
      && (ValidTx(c, tx, l) <==> allVerify)
  {
    forall i | 0 <= i < |tx.inputs|
      ensures InputBytes(tx.inputs[i]).Ok?
      ensures RightInput(c, tx, i, l) <==>
        c.verify(InputBytes(tx.inputs[i]).value + OutputsBytes(c, tx.outputs),
                 c.parseKey(l[Outpoint(tx.inputs[i])].publicKey).value, tx.inputs[i].signature)
    {
      LedgerOps.SignableInputs(c, tx, i);
    }
    ValidExactly(c, tx, l);
    if i :| 0 <= i < |tx.inputs| && !RightInput(c, tx, i, l) {
      var n := FirstWrong(c, tx, l);
      FirstFault(c, tx, l, n);
    } else {
      OutputsDecide(c, tx, l);
    }
  }

  lemma FirstWrong(c: Crypto, tx: Transaction, l: Utxos) returns (n: nat)
    requires exists i :: 0 <= i < |tx.inputs| && !RightInput(c, tx, i, l)
    ensures n < |tx.inputs| && !RightInput(c, tx, n, l) && forall i :: 0 <= i < n ==> RightInput(c, tx, i, l)
  {
    n := 0;
    while RightInput(c, tx, n, l)
      invariant n < |tx.inputs| && forall i :: 0 <= i < n ==> RightInput(c, tx, i, l)
      decreases |tx.inputs| - n
    {
      n := n + 1;
    }
  }

  // ----- the work of a block -----

  /** The block can be encoded, carries its own digest, and the digest is below the target. At a difficulty between
      -7 and -1 every digest is good enough, and beyond these none is. */
  ghost predicate HasWork(c: Crypto, difficulty: int, b: Block) {
    && BlockBytes(c, b).Ok?
    && b.hash == BytesToHex(c.sha256(BlockBytes(c, b).value))
    && if 0 <= difficulty < 256 then BigEndian(c.sha256(BlockBytes(c, b).value)) < Pow(2, 256 - difficulty)
       else -8 < difficulty < 0
  }

  /** The check of a header, at every difficulty. */
  lemma HeaderExactly(c: Crypto, cfg: Config, b: Block)
    ensures HeaderOk(c, cfg, b) <==> HasWork(c, cfg.difficulty, b)
    ensures 0 <= cfg.difficulty < 256 ==>
      (HeaderOk(c, cfg, b) <==>
         && BlockBytes(c, b).Ok?
         && b.hash == BytesToHex(c.sha256(BlockBytes(c, b).value))
         && BigEndian(c.sha256(BlockBytes(c, b).value)) < Pow(2, 256 - cfg.difficulty))
  {
    var m := Match(c, b, cfg.difficulty);
    assert HeaderOk(c, cfg, b) <==> m.Ok? && m.value.0 && m.value.1 == b.hash;
    MatchExactly(c, b, cfg.difficulty);
  }

  /** Every block a node holds was worked for. */
  lemma HeldBlocksMeetTarget(c: Crypto, cfg: Config, steps: seq<Step>, h: Hash)
    requires 0 <= cfg.difficulty < 256 && h in Reached(c, cfg, steps).chain && h != GENESIS_HASH
    ensures var b := Reached(c, cfg, steps).chain[h].block;
      && BlockBytes(c, b).Ok?
      && h == BytesToHex(c.sha256(BlockBytes(c, b).value))
      && BigEndian(c.sha256(BlockBytes(c, b).value)) < Pow(2, 256 - cfg.difficulty)
  {
    var s := Reached(c, cfg, steps);
    assert Linked(s, h) && ValidAt(c, cfg, s, h);
    HeaderExactly(c, cfg, s.chain[h].block);
  }

  // ----- answers -----

  lemma {:induction false} FeeErrors(txs: seq<Transaction>, l: Utxos)
    ensures Fee(txs, l).Err? ==> Fee(txs, l).error.InputSpent? || Fee(txs, l).error.OutputExceedsInput?
  {
    if txs == [] {
    } else {
      FeeErrors(txs[1..], l);
    }
  }

  /** A block that was hashed has a coinbase that can be hashed. */
  lemma CoinbaseEncodable(c: Crypto, b: Block)
    requires BlockBytes(c, b).Ok?
    ensures TxBytes(c, b.coinbase, false).Ok?
  {
  }

  lemma BodyErrors(c: Crypto, cfg: Config, b: Block, l: Utxos)
    requires BlockBytes(c, b).Ok? && BodyVerdict(c, cfg, b, l).Some?
    ensures BodyVerdict(c, cfg, b, l).value in
      {InputSpent, OutputExceedsInput, BadTxHash, BadCoinbaseShape, CoinbaseTooLarge, BatchInvalid}
  {
    FeeErrors(b.txs, l);
    CoinbaseEncodable(c, b);
  }

  /** The answers before the parent is looked for. */
  lemma HeaderAnswers(c: Crypto, cfg: Config, s: NodeState, b: Block)
    requires Inv(c, cfg, s) && 0 <= cfg.difficulty < 256
    ensures var err := Handle(c, cfg, s, b).1.err;
      var target := Pow(2, 256 - cfg.difficulty);
      && (b.hash in s.chain ==> err == Some(BlockExists))
      && (b.hash !in s.chain && BlockBytes(c, b) == Err(Panic) ==> err == Some(Panic))
      && (b.hash !in s.chain && BlockBytes(c, b).Err? && BlockBytes(c, b) != Err(Panic) ==>
            err == Some(DifficultyMismatch))
      && (b.hash !in s.chain && BlockBytes(c, b).Ok? ==>
            var digest := c.sha256(BlockBytes(c, b).value);
            && (target <= BigEndian(digest) ==> err == Some(DifficultyMismatch))
            && (BigEndian(digest) < target && b.hash != BytesToHex(digest) ==> err == Some(BadBlockHash)))
  {
    MatchExactly(c, b, cfg.difficulty);
  }

  /** The answers about the parent, to a block that is new and rightly hashed. */
  lemma PlaceAnswers(c: Crypto, cfg: Config, s: NodeState, b: Block)
    requires Inv(c, cfg, s) && b.hash !in s.chain && HasWork(c, cfg.difficulty, b)
    ensures var err := Handle(c, cfg, s, b).1.err;
      && (err == Some(ParentNotFound) <==> b.prevHash !in s.chain)
      && (err == Some(ParentTooDeep) <==>
            b.prevHash in s.chain && s.chain[b.prevHash].height + cfg.confirmation < s.chain[s.tail].height)
  {
    HeaderExactly(c, cfg, b);
    if PlaceVerdict(cfg, s, b) == None && Check(c, cfg, s, b).Some? {
      BodyErrors(c, cfg, b, s.chain[b.prevHash].ledger);
    }
  }

  /** The answers about the content, on the ledger of the parent. */
  lemma BodyAnswers(c: Crypto, cfg: Config, s: NodeState, b: Block)
    requires Inv(c, cfg, s) && b.hash !in s.chain && HasWork(c, cfg.difficulty, b)
    requires b.prevHash in s.chain && s.chain[s.tail].height <= s.chain[b.prevHash].height + cfg.confirmation
    ensures TxBytes(c, b.coinbase, false).Ok?
    ensures var l := s.chain[b.prevHash].ledger;
      Fee(b.txs, l).Ok? <==>
        forall t :: t in b.txs ==> Present(t.inputs, l) && TotalOut(t.outputs) <= TotalIn(t.inputs, l)
    ensures var l, u, err := s.chain[b.prevHash].ledger, b.coinbase, Handle(c, cfg, s, b).1.err;
      if Fee(b.txs, l).Err? then err == Some(InputSpent) || err == Some(OutputExceedsInput)
      else if u.hash != BytesToHex(c.sha256(TxBytes(c, u, false).value)) then err == Some(BadTxHash)
      else if u.inputs != [] || |u.outputs| != 1 then err == Some(BadCoinbaseShape)
      else if cfg.reward + Fee(b.txs, l).value < u.outputs[0].value then err == Some(CoinbaseTooLarge)
      else err == if Replay(c, b.txs, l).failed != [] then Some(BatchInvalid) else None
  {
    HeaderExactly(c, cfg, b);
    CoinbaseEncodable(c, b);
    FeeErrors(b.txs, s.chain[b.prevHash].ledger);
    FeeIsDefined(b.txs, s.chain[b.prevHash].ledger);
  }

  /** The block is new to the node and rightly worked for, and the node does not hold its parent. */
  ghost predicate LacksParent(c: Crypto, cfg: Config, s: NodeState, b: Block) {
    b.hash !in s.chain && HasWork(c, cfg.difficulty, b) && b.prevHash !in s.chain
  }

  lemma NotFoundExactly(c: Crypto, cfg: Config, s: NodeState, b: Block)
    requires Inv(c, cfg, s)
    ensures Check(c, cfg, s, b) == Some(ParentNotFound) <==> LacksParent(c, cfg, s, b)
  {
    HeaderExactly(c, cfg, b);
    if b.hash !in s.chain && HasWork(c, cfg.difficulty, b) {
      PlaceAnswers(c, cfg, s, b);
    }
  }

  /** Exactly a new block whose work is right and whose parent is not held is reported as out of sync. It is not
      accepted, and the node stays as it is. */
  lemma OutOfSyncExactly(c: Crypto, cfg: Config, s: NodeState, b: Block)
    requires Inv(c, cfg, s)
    ensures var (s', r) := Handle(c, cfg, s, b);
      && (r.outOfSync <==> b.hash !in s.chain && HasWork(c, cfg.difficulty, b) && b.prevHash !in s.chain)
      && (r.outOfSync ==> !r.tailChange && r.err.Some? && s' == s)
  {
    NotFoundExactly(c, cfg, s, b);
  }

  /** Of the blocks that a peer holds, a node is told to be out of sync exactly for those it lacks together with their
      parents. */
  lemma BehindIsTold(c: Crypto, cfg: Config, steps: seq<Step>, others: seq<Step>, h: Hash)
    requires h in Reached(c, cfg, others).chain && h != GENESIS_HASH
    ensures var s, b := Reached(c, cfg, steps), Reached(c, cfg, others).chain[h].block;
      Handle(c, cfg, s, b).1.outOfSync <==> h !in s.chain && b.prevHash !in s.chain
  {
    var t := Reached(c, cfg, others);
    assert Linked(t, h) && ValidAt(c, cfg, t, h);
    HeaderExactly(c, cfg, t.chain[h].block);
    OutOfSyncExactly(c, cfg, Reached(c, cfg, steps), t.chain[h].block);
  }

  /** So a node that lacks a block a peer has just accepted, and the block's parent, is always told. */
  lemma NewBlockTells(c: Crypto, cfg: Config, steps: seq<Step>, others: seq<Step>, b: Block)
    requires var t := Reached(c, cfg, others);
      b.hash !in t.chain && b.hash in Next(c, cfg, t, Receive(b)).chain
    requires b.hash !in Reached(c, cfg, steps).chain && b.prevHash !in Reached(c, cfg, steps).chain
    ensures var s := Reached(c, cfg, steps);
      Handle(c, cfg, s, b) == (s, Reply(false, true, Some(ParentNotFound)))
  {
    HeaderExactly(c, cfg, b);
    PlaceAnswers(c, cfg, Reached(c, cfg, steps), b);
  }

  // ----- the pool -----

  /** An accepted block takes exactly its transactions out of the pool, on whatever branch it is. */
  lemma PoolAfterBlock(c: Crypto, cfg: Config, s: NodeState, b: Block)
    requires Inv(c, cfg, s)
    ensures var (s', r) := Handle(c, cfg, s, b);
      && (forall h :: h in s'.pool <==>
            h in s.pool && (r.err.None? ==> forall i :: 0 <= i < |b.txs| ==> b.txs[i].hash != h))
      && (forall h :: h in s'.pool ==> s'.pool[h] == s.pool[h])
  {
    if Check(c, cfg, s, b) == None {
      assert Handle(c, cfg, s, b).0.pool == WithoutTxs(s.pool, b.txs);
    }
  }

  /** A transaction with a known id leaves the pool alone, one with a new id joins it, and removal is by id. The chain
      is not touched. */
  lemma PoolAfterTx(c: Crypto, cfg: Config, s: NodeState, tx: Transaction, h: Hash)
    requires Inv(c, cfg, s)
    ensures var (added, removed) := (Next(c, cfg, s, AddTx(tx)), Next(c, cfg, s, RemoveTx(tx)));
      && added == s.(pool := added.pool) && removed == s.(pool := removed.pool)
      && (h in added.pool <==> h in s.pool || h == tx.hash)
      && (h in s.pool ==> added.pool[h] == s.pool[h])
      && (h == tx.hash && h !in s.pool ==> added.pool[h] == tx)
      && (h in removed.pool <==> h in s.pool && h != tx.hash)
      && (h in removed.pool ==> removed.pool[h] == s.pool[h])
  {
  }
}

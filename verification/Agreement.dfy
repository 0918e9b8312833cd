/** When nodes that hold one block hash agree on what it stands for. The encoding that is hashed has no counts
    and no lengths, so equal bytes need not mean equal content, however good the digest is. */
module Agreement {
  import opened Encoding
  import opened LedgerSpec
  import opened NodeSpec
  import opened Types

  // ----- the same hashed content has the same effect -----

  lemma StripKeepsEffect(t: Transaction, u: Transaction, l: Utxos)
    requires StripTx(t) == StripTx(u)
    ensures ApplyTx(t, l) == ApplyTx(u, l)
  {
    assert |t.inputs| == |StripTx(t).inputs| == |u.inputs|;
    forall i | 0 <= i < |t.inputs|
      ensures Outpoint(t.inputs[i]) == Outpoint(u.inputs[i])
    {
      assert StripTx(t).inputs[i] == StripTx(u).inputs[i];
    }
    assert Keys(t.inputs) == Keys(u.inputs);
  }

  lemma {:induction false} StripKeepsBatch(a: seq<Transaction>, b: seq<Transaction>, l: Utxos)
    requires StripTxs(a) == StripTxs(b)
    ensures ApplyAll(a, l) == ApplyAll(b, l)
  {
    assert |a| == |StripTxs(a)| == |b|;
    if a == [] {
    } else {
      assert StripTx(a[0]) == StripTxs(a)[0] == StripTxs(b)[0] == StripTx(b[0]);
      StripKeepsEffect(a[0], b[0], l);
      assert StripTxs(a[1..]) == StripTxs(a)[1..] == StripTxs(b)[1..] == StripTxs(b[1..]);
      StripKeepsBatch(a[1..], b[1..], ApplyTx(a[0], l));
    }
  }

  lemma StripKeepsBlock(c: Crypto, cfg: Config, a: Block, b: Block, l: Utxos)
    requires StripBlock(a) == StripBlock(b)
    requires BodyVerdict(c, cfg, a, l) == None && BodyVerdict(c, cfg, b, l) == None
    ensures BlockLedger(c, a, l) == BlockLedger(c, b, l)
  {
    SuccessAppliesAll(c, a.txs, l);
    SuccessAppliesAll(c, b.txs, l);
    assert StripTxs(a.txs) == StripBlock(a).txs == StripBlock(b).txs == StripTxs(b.txs);
    assert StripTx(a.coinbase) == StripBlock(a).coinbase == StripBlock(b).coinbase == StripTx(b.coinbase);
    StripKeepsBatch(a.txs, b.txs, l);
    StripKeepsEffect(a.coinbase, b.coinbase, ApplyAll(a.txs, l));
  }

  ghost predicate SameContent(s: NodeState, t: NodeState, h: Hash) {
    h in s.chain && h in t.chain && StripBlock(s.chain[h].block) == StripBlock(t.chain[h].block)
  }

  /** No block of one node and block of the other have one hash of the given ones and different hashed content. */
  ghost predicate NoBlockCollision(s: NodeState, t: NodeState, on: set<Hash>) {
    forall h {:trigger SameContent(s, t, h)} :: Shared(s, t, on, h) ==> SameContent(s, t, h)
  }

  ghost predicate Shared(s: NodeState, t: NodeState, on: set<Hash>, h: Hash) {
    h in on && h in s.chain && h in t.chain
  }

  ghost predicate ParentIn(t: NodeState, on: set<Hash>, h: Hash) {
    h in t.chain && t.chain[h].block.prevHash in on
  }

  /** The set has the parent in `t` of every block it has. */
  ghost predicate Downward(t: NodeState, on: set<Hash>) {
    forall h {:trigger ParentIn(t, on, h)} :: h in on && h in t.chain && h != GENESIS_HASH ==> ParentIn(t, on, h)
  }

  // ----- what a node holds is written in lower case -----

  ghost predicate HexKeys(l: Utxos) {
    forall k :: k in l ==> LowerHex(k.prevTxHash)
  }

  lemma HashOkIsHex(c: Crypto, tx: Transaction)
    requires HashOk(c, tx)
    ensures LowerHex(tx.hash) && |tx.hash| == 64
  {
    DigestHex(c, TxBytes(c, tx, false).value);
  }

  lemma ApplyHex(tx: Transaction, l: Utxos)
    requires HexKeys(l) && LowerHex(tx.hash) && Present(tx.inputs, l)
    ensures HexKeys(ApplyTx(tx, l)) && LowerHexTx(tx)
  {
    forall k | k in ApplyTx(tx, l)
      ensures LowerHex(k.prevTxHash)
    {
      ApplyTxAt(tx, l, k);
    }
    forall i | 0 <= i < |tx.inputs|
      ensures LowerHex(tx.inputs[i].prevTxHash)
    {
      assert Outpoint(tx.inputs[i]) in l;
    }
  }

  /** Rightly hashed, and every hash in it in lower case. */
  ghost predicate Settled(c: Crypto, tx: Transaction) {
    HashOk(c, tx) && LowerHexTx(tx)
  }

  lemma {:induction false} BatchHex(c: Crypto, txs: seq<Transaction>, l: Utxos)
    requires HexKeys(l) && Replay(c, txs, l).failed == []
    ensures HexKeys(Replay(c, txs, l).ledger)
    ensures forall i :: 0 <= i < |txs| ==> Settled(c, txs[i])
  {
    if txs == [] {
    } else {
      HashOkIsHex(c, txs[0]);
      ApplyHex(txs[0], l);
      BatchHex(c, txs[1..], ApplyTx(txs[0], l));
      assert forall i :: 1 <= i < |txs| ==> txs[i] == txs[1..][i - 1];
    }
  }

  ghost predicate SettledBlock(c: Crypto, b: Block) {
    && LowerHex(b.prevHash) && Settled(c, b.coinbase)
    && forall i :: 0 <= i < |b.txs| ==> Settled(c, b.txs[i])
  }

  lemma BlockHex(c: Crypto, cfg: Config, b: Block, l: Utxos)
    requires HexKeys(l) && LowerHex(b.prevHash) && BodyVerdict(c, cfg, b, l) == None
    ensures HexKeys(BlockLedger(c, b, l)) && SettledBlock(c, b)
  {
    BatchHex(c, b.txs, l);
    HashOkIsHex(c, b.coinbase);
    ApplyHex(b.coinbase, Replay(c, b.txs, l).ledger);
  }

  /** Ids are digests and inputs name ids, so accepted blocks and cached ledgers hold lower-case hex only. */
  lemma {:induction false} ChainHex(c: Crypto, cfg: Config, s: NodeState, h: Hash)
    requires Inv(c, cfg, s) && h in s.chain
    ensures LowerHex(h) && HexKeys(s.chain[h].ledger)
    ensures h != GENESIS_HASH ==> SettledBlock(c, s.chain[h].block)
    decreases s.chain[h].height
  {
    if h == GENESIS_HASH {
    } else {
      var b := s.chain[h].block;
      assert Linked(s, h) && ValidAt(c, cfg, s, h);
      DigestHex(c, BlockBytes(c, b).value);
      ChainHex(c, cfg, s, b.prevHash);
      BlockHex(c, cfg, b, s.chain[b.prevHash].ledger);
    }
  }

  // ----- one hash, one content -----

  /** The digest and the float encoding separate two blocks: equal digests come from equal bytes, and equal
      float bits from equal amounts. */
  ghost predicate Separated(c: Crypto, a: Block, b: Block) {
    && SeparatesBlocks(c, a, b)
    && (BlockBytes(c, a).Ok? && BlockBytes(c, b).Ok?
        && c.sha256(BlockBytes(c, a).value) == c.sha256(BlockBytes(c, b).value) ==>
          BlockBytes(c, a) == BlockBytes(c, b))
  }

  ghost predicate SeparatedAt(c: Crypto, s: NodeState, t: NodeState, h: Hash) {
    h in s.chain && h in t.chain && Separated(c, s.chain[h].block, t.chain[h].block)
  }

  ghost predicate DigestSeparates(c: Crypto, s: NodeState, t: NodeState, on: set<Hash>) {
    forall h {:trigger SeparatedAt(c, s, t, h)} :: Shared(s, t, on, h) ==> SeparatedAt(c, s, t, h)
  }

  ghost predicate SameShapeAt(s: NodeState, t: NodeState, h: Hash) {
    h in s.chain && h in t.chain && SameBlockShape(s.chain[h].block, t.chain[h].block)
  }

  /** What two nodes hold under one hash of the given ones has equal counts of transactions, inputs and outputs, and
      keys of equal lengths. */
  ghost predicate SameShapes(s: NodeState, t: NodeState, on: set<Hash>) {
    forall h {:trigger SameShapeAt(s, t, h)} :: Shared(s, t, on, h) ==> SameShapeAt(s, t, h)
  }

  /** A digest that separates the bytes of two valid blocks of one shape separates the blocks. */
  lemma DigestSeparatesBlocks(c: Crypto, cfg: Config, a: Block, b: Block)
    requires HeaderOk(c, cfg, a) && HeaderOk(c, cfg, b) && a.hash == b.hash
    requires SameBlockShape(a, b) && LowerHexBlock(a) && LowerHexBlock(b) && Separated(c, a, b)
    ensures StripBlock(a) == StripBlock(b)
  {
    HexRoundTrip(c.sha256(BlockBytes(c, a).value));
    HexRoundTrip(c.sha256(BlockBytes(c, b).value));
    BlockBytesInjective(c, a, b);
    assert StripBlock(a) == StripBlock(a).(hash := "").(hash := a.hash);
    assert StripBlock(b) == StripBlock(b).(hash := "").(hash := a.hash);
  }

  lemma SameTxContent(t: Transaction, u: Transaction)
    requires StripTx(t) == StripTx(u)
    ensures SameTxShape(t, u)
  {
    assert |t.inputs| == |StripTx(t).inputs| == |u.inputs|;
    forall i | 0 <= i < |t.inputs|
      ensures |t.inputs[i].prevTxHash| == |u.inputs[i].prevTxHash|
    {
      assert StripTx(t).inputs[i] == StripTx(u).inputs[i];
    }
    assert t.outputs == StripTx(t).outputs == StripTx(u).outputs == u.outputs;
  }

  lemma SameBlockContent(a: Block, b: Block)
    requires StripBlock(a) == StripBlock(b)
    ensures SameBlockShape(a, b)
  {
    assert StripTxs(a.txs) == StripBlock(a).txs == StripBlock(b).txs == StripTxs(b.txs);
    assert StripTx(a.coinbase) == StripBlock(a).coinbase == StripBlock(b).coinbase == StripTx(b.coinbase);
    assert |a.txs| == |StripTxs(a.txs)| == |b.txs|;
    forall i | 0 <= i < |a.txs|
      ensures SameTxShape(a.txs[i], b.txs[i])
    {
      assert StripTx(a.txs[i]) == StripTxs(a.txs)[i] == StripTxs(b.txs)[i] == StripTx(b.txs[i]);
      SameTxContent(a.txs[i], b.txs[i]);
    }
    SameTxContent(a.coinbase, b.coinbase);
    assert a.prevHash == StripBlock(a).prevHash == StripBlock(b).prevHash == b.prevHash;
  }

  /** With a digest that separates, what two nodes hold under one hash has the same content exactly if it has
      the same shape. */
  lemma SharedHash(c: Crypto, cfg: Config, s: NodeState, t: NodeState, h: Hash)
    requires Inv(c, cfg, s) && Inv(c, cfg, t) && SeparatedAt(c, s, t, h)
    ensures SameContent(s, t, h) <==> SameShapeAt(s, t, h)
  {
    if SameContent(s, t, h) {
      SameBlockContent(s.chain[h].block, t.chain[h].block);
    }
    if SameShapeAt(s, t, h) && h != GENESIS_HASH {
      assert ValidAt(c, cfg, s, h) && ValidAt(c, cfg, t, h) && Linked(s, h) && Linked(t, h);
      ChainHex(c, cfg, s, h);
      ChainHex(c, cfg, t, h);
      DigestSeparatesBlocks(c, cfg, s.chain[h].block, t.chain[h].block);
    }
  }

  lemma CollisionFreeExactly(c: Crypto, cfg: Config, s: NodeState, t: NodeState, on: set<Hash>)
    requires Inv(c, cfg, s) && Inv(c, cfg, t) && DigestSeparates(c, s, t, on)
    ensures NoBlockCollision(s, t, on) <==> SameShapes(s, t, on)
  {
    forall h | Shared(s, t, on, h)
      ensures SameContent(s, t, h) <==> SameShapeAt(s, t, h)
    {
      assert SeparatedAt(c, s, t, h);
      SharedHash(c, cfg, s, t, h);
    }
  }

  lemma SameParent(c: Crypto, cfg: Config, s: NodeState, t: NodeState, h: Hash)
    requires Inv(c, cfg, s) && Inv(c, cfg, t) && SameContent(s, t, h) && h != GENESIS_HASH
    ensures s.chain[h].block.prevHash == t.chain[h].block.prevHash
    ensures var p := s.chain[h].block.prevHash;
      && p in s.chain && p in t.chain
      && (s.chain[p].ledger == t.chain[p].ledger ==> s.chain[h].ledger == t.chain[h].ledger)
  {
    var a, b := s.chain[h].block, t.chain[h].block;
    assert ValidAt(c, cfg, s, h) && ValidAt(c, cfg, t, h) && Linked(s, h) && Linked(t, h);
    assert a.prevHash == StripBlock(a).prevHash == StripBlock(b).prevHash == b.prevHash;
    if s.chain[a.prevHash].ledger == t.chain[a.prevHash].ledger {
      StripKeepsBlock(c, cfg, a, b, s.chain[a.prevHash].ledger);
    }
  }

  lemma {:induction false} SameHashSameLedger(
      c: Crypto, cfg: Config, s: NodeState, t: NodeState, on: set<Hash>, h: Hash)
    requires Inv(c, cfg, s) && Inv(c, cfg, t) && Downward(t, on) && NoBlockCollision(s, t, on) && Shared(s, t, on, h)
    ensures s.chain[h].height == t.chain[h].height && s.chain[h].ledger == t.chain[h].ledger
    ensures Path(s, h) == Path(t, h)
    decreases s.chain[h].height
  {
    if h == GENESIS_HASH {
    } else {
      assert SameContent(s, t, h) && ParentIn(t, on, h);
      SameParent(c, cfg, s, t, h);
      assert Linked(s, h) && Linked(t, h);
      var p := s.chain[h].block.prevHash;
      SameHashSameLedger(c, cfg, s, t, on, p);
      assert Path(s, h) == Path(s, p) + [h];
      assert Path(t, h) == Path(t, p) + [h];
    }
  }

  /** The two nodes hold the same block under `h`, the same path below it, the same height and ledger. */
  ghost predicate Agree(s: NodeState, t: NodeState, h: Hash)
    requires Tree(s) && Tree(t)
  {
    && SameContent(s, t, h) && Path(s, h) == Path(t, h)
    && s.chain[h].height == t.chain[h].height && s.chain[h].ledger == t.chain[h].ledger
  }

  /** Two nodes agree on the hashes they share in a part of the tree that goes down to genesis exactly if what they
      hold under one of them has one shape, given a digest and a float encoding that separate. */
  lemma NodesAgreeOn(c: Crypto, cfg: Config, s: NodeState, t: NodeState, on: set<Hash>)
    requires Inv(c, cfg, s) && Inv(c, cfg, t) && Downward(t, on) && DigestSeparates(c, s, t, on)
    ensures (forall h :: Shared(s, t, on, h) ==> Agree(s, t, h)) <==> SameShapes(s, t, on)
  {
    CollisionFreeExactly(c, cfg, s, t, on);
    if SameShapes(s, t, on) {
      forall h | Shared(s, t, on, h)
        ensures Agree(s, t, h)
      {
        assert SameContent(s, t, h);
        SameHashSameLedger(c, cfg, s, t, on, h);
      }
    } else {
      var h :| Shared(s, t, on, h) && !SameContent(s, t, h);
      assert !Agree(s, t, h);
    }
  }

  lemma WholeTreeIsDownward(t: NodeState)
    requires Tree(t)
    ensures Downward(t, t.chain.Keys)
  {
    forall h | h in t.chain && h != GENESIS_HASH
      ensures ParentIn(t, t.chain.Keys, h)
    {
      assert Linked(t, h);
    }
  }

  /** Whatever order the blocks arrived in, two nodes agree on every hash both hold exactly if what they hold
      under one hash has one shape. */
  lemma NodesAgree(c: Crypto, cfg: Config, steps: seq<Step>, steps': seq<Step>)
    requires var t := Reached(c, cfg, steps'); DigestSeparates(c, Reached(c, cfg, steps), t, t.chain.Keys)
    ensures var s, t := Reached(c, cfg, steps), Reached(c, cfg, steps');
      (forall h :: h in s.chain && h in t.chain ==> Agree(s, t, h)) <==> SameShapes(s, t, t.chain.Keys)
  {
    var s, t := Reached(c, cfg, steps), Reached(c, cfg, steps');
    WholeTreeIsDownward(t);
    NodesAgreeOn(c, cfg, s, t, t.chain.Keys);
    if forall h :: h in s.chain && h in t.chain ==> Agree(s, t, h) {
      assert forall h :: Shared(s, t, t.chain.Keys, h) ==> Agree(s, t, h);
    }
    if SameShapes(s, t, t.chain.Keys) {
      forall h | h in s.chain && h in t.chain
        ensures Agree(s, t, h)
      {
        assert Shared(s, t, t.chain.Keys, h);
      }
    }
  }

  // ----- two contents with one encoding -----

  lemma {:induction false} OutputsBytesConcat(c: Crypto, a: seq<Output>, b: seq<Output>)
    ensures OutputsBytes(c, a + b) == OutputsBytes(c, a) + OutputsBytes(c, b)
  {
    if a == [] {
      assert a + b == b;
    } else {
      assert (a + b)[1..] == a[1..] + b;
      OutputsBytesConcat(c, a[1..], b);
      Assoc(OutputBytes(c, a[0]), OutputsBytes(c, a[1..]), OutputsBytes(c, b));
    }
  }

  /** The encoding of the last output read as the end of the key before it. */
  ghost function Joined(c: Crypto, o: Output, last: Output): Output {
    Output(o.value, o.publicKey + OutputBytes(c, last))
  }

  /** The transaction with its last two outputs run together. */
  ghost function Merged(c: Crypto, t: Transaction): Transaction
    requires |t.outputs| >= 2
  {
    var n := |t.outputs| - 2;
    t.(outputs := t.outputs[..n] + [Joined(c, t.outputs[n], t.outputs[n + 1])])
  }

  lemma MergedBytes(c: Crypto, t: Transaction)
    requires |t.outputs| >= 2
    ensures OutputsBytes(c, Merged(c, t).outputs) == OutputsBytes(c, t.outputs)
  {
    var n := |t.outputs| - 2;
    var o, last := t.outputs[n], t.outputs[n + 1];
    var j := Joined(c, o, last);
    OutputsBytesConcat(c, t.outputs[..n], [o, last]);
    OutputsBytesConcat(c, t.outputs[..n], [j]);
    assert t.outputs == t.outputs[..n] + [o, last];
    assert [o, last][1..] == [last] && [last][1..] == [] && [j][1..] == [];
    assert OutputsBytes(c, [last]) == OutputBytes(c, last) + [] == OutputBytes(c, last);
    assert OutputsBytes(c, [j]) == OutputBytes(c, j) + [] == OutputBytes(c, j);
    Assoc(c.floatBits(o.value), o.publicKey, OutputBytes(c, last));
  }

  lemma TotalOutPair(pre: seq<Output>, o: Output, last: Output, j: Output)
    requires j.value == o.value
    ensures TotalOut(pre + [j]) == TotalOut(pre + [o, last]) - last.value
  {
    TotalOutSnoc(pre + [j]);
    TotalOutSnoc(pre + [o]);
    TotalOutSnoc(pre + [o, last]);
    assert (pre + [j])[..|pre|] == pre && (pre + [o])[..|pre|] == pre;
    assert (pre + [o, last])[..|pre| + 1] == pre + [o];
  }

  /** It is valid where the transaction is, under the same id and signatures, and pays out the last output less. */
  lemma MergedValid(c: Crypto, t: Transaction, l: Utxos)
    requires |t.outputs| >= 2 && ValidTx(c, t, l)
    ensures ValidTx(c, Merged(c, t), l)
    ensures TotalOut(Merged(c, t).outputs) == TotalOut(t.outputs) - t.outputs[|t.outputs| - 1].value
  {
    var n := |t.outputs| - 2;
    var u := Merged(c, t);
    MergedBytes(c, t);
    assert t.outputs == t.outputs[..n] + [t.outputs[n], t.outputs[n + 1]];
    TotalOutPair(t.outputs[..n], t.outputs[n], t.outputs[n + 1], u.outputs[n]);
    forall i | 0 <= i < |u.inputs|
      ensures Signed(c, u, i, l)
    {
      assert Signed(c, t, i, l) && SignBytes(c, u, i) == SignBytes(c, t, i);
    }
  }

  lemma SingleTxBatch(c: Crypto, t: Transaction, l: Utxos)
    requires ValidTx(c, t, l)
    ensures Replay(c, [t], l) == Batch(ApplyTx(t, l), [])
    ensures Fee([t], l) == Ok(TotalOut(t.outputs) - TotalIn(t.inputs, l))
  {
    assert [t][1..] == [];
    assert Fee([], l) == Ok(0.0);
  }

  ghost function MergedBlock(c: Crypto, b: Block): Block
    requires |b.txs| == 1 && |b.txs[0].outputs| >= 2
  {
    b.(txs := [Merged(c, b.txs[0])])
  }

  lemma MergedBlockBytes(c: Crypto, b: Block)
    requires |b.txs| == 1 && |b.txs[0].outputs| >= 2
    ensures BlockBytes(c, MergedBlock(c, b)) == BlockBytes(c, b)
  {
    var u := Merged(c, b.txs[0]);
    MergedBytes(c, b.txs[0]);
    assert TxBytes(c, u, true) == TxBytes(c, b.txs[0], true);
    assert b.txs[1..] == [] && [u][1..] == [];
    assert TxsBytes(c, [u]) == TxsBytes(c, b.txs);
  }

  lemma SingleTxValid(c: Crypto, cfg: Config, b: Block, l: Utxos)
    requires |b.txs| == 1 && BodyVerdict(c, cfg, b, l) == None
    ensures ValidTx(c, b.txs[0], l)
  {
    assert b.txs == [b.txs[0]];
  }

  /** What the merged block has to pass on the parent's ledger: only the bound on the coinbase is tighter. */
  lemma MergedBody(c: Crypto, cfg: Config, b: Block, l: Utxos)
    requires |b.txs| == 1 && |b.txs[0].outputs| >= 2 && BodyVerdict(c, cfg, b, l) == None
    ensures var t := b.txs[0];
      var spare := Fee(b.txs, l).value + cfg.reward - b.coinbase.outputs[0].value;
      BodyVerdict(c, cfg, MergedBlock(c, b), l) ==
        if t.outputs[|t.outputs| - 1].value <= spare then None else Some(CoinbaseTooLarge)
    ensures var t := b.txs[0];
      && BlockLedger(c, b, l) == ApplyTx(b.coinbase, ApplyTx(t, l))
      && BlockLedger(c, MergedBlock(c, b), l) == ApplyTx(b.coinbase, ApplyTx(Merged(c, t), l))
  {
    var t := b.txs[0];
    assert b.txs == [t];
    SingleTxValid(c, cfg, b, l);
    MergedValid(c, t, l);
    SingleTxBatch(c, t, l);
    SingleTxBatch(c, Merged(c, t), l);
  }

  /** The output before the last has a longer key in the one ledger than in the other. */
  lemma MergedLedgerDiffers(c: Crypto, t: Transaction, coinbase: Transaction, l: Utxos)
    requires |t.outputs| >= 2 && coinbase.inputs == [] && coinbase.hash != t.hash
    ensures ApplyTx(coinbase, ApplyTx(t, l)) != ApplyTx(coinbase, ApplyTx(Merged(c, t), l))
  {
    var n := |t.outputs| - 2;
    var k, u := UTXOLite(t.hash, n), Merged(c, t);
    LastAppliedAt(t, coinbase, l, k);
    LastAppliedAt(u, coinbase, l, k);
    assert |u.outputs[n].publicKey| > |t.outputs[n].publicKey|;
  }

  lemma LastAppliedAt(t: Transaction, coinbase: Transaction, l: Utxos, k: UTXOLite)
    requires coinbase.inputs == [] && coinbase.hash != t.hash && IsOut(t, k)
    ensures var m := ApplyTx(coinbase, ApplyTx(t, l));
      k in m && m[k] == t.outputs[k.index]
  {
    ApplyTxAt(t, l, k);
    ApplyTxAt(coinbase, ApplyTx(t, l), k);
  }

  /** A block of one transaction with more than one output, accepted in state `s`. */
  ghost predicate Mergeable(c: Crypto, cfg: Config, s: NodeState, b: Block) {
    && Inv(c, cfg, s) && Check(c, cfg, s, b) == None
    && |b.txs| == 1 && |b.txs[0].outputs| >= 2 && b.coinbase.hash != b.txs[0].hash
  }

  /** What a block leaves of reward and fee. */
  ghost function Unclaimed(cfg: Config, s: NodeState, b: Block): real
    requires b.prevHash in s.chain && Fee(b.txs, s.chain[b.prevHash].ledger).Ok? && |b.coinbase.outputs| == 1
  {
    Fee(b.txs, s.chain[b.prevHash].ledger).value + cfg.reward - b.coinbase.outputs[0].value
  }

  /** A block of one transaction, and the same block with the last two outputs of the transaction run together,
      have one hash. A node that takes the one takes the other exactly if the last output is worth no more than
      what the coinbase leaves unclaimed, which it always is when it is worth nothing. */
  lemma MergedBlockAccepted(c: Crypto, cfg: Config, s: NodeState, b: Block)
    requires Mergeable(c, cfg, s, b)
    ensures b.prevHash in s.chain && Fee(b.txs, s.chain[b.prevHash].ledger).Ok? && |b.coinbase.outputs| == 1
    ensures MergedBlock(c, b).hash == b.hash && 0.0 <= Unclaimed(cfg, s, b)
    ensures var last := b.txs[0].outputs[|b.txs[0].outputs| - 1].value;
      Check(c, cfg, s, MergedBlock(c, b)) == if last <= Unclaimed(cfg, s, b) then None else Some(CoinbaseTooLarge)
  {
    MergedBlockBytes(c, b);
    MergedBody(c, cfg, b, s.chain[b.prevHash].ledger);
  }

  lemma MergedSeparated(c: Crypto, b: Block)
    requires |b.txs| == 1 && |b.txs[0].outputs| >= 2
    ensures Separated(c, b, MergedBlock(c, b)) && !SameBlockShape(b, MergedBlock(c, b))
  {
    MergedBlockBytes(c, b);
  }

  /** Two nodes that differ in what they hold under `h` only. */
  lemma OneHashDiffers(c: Crypto, s: NodeState, p: NodeState, q: NodeState, h: Hash)
    requires h in p.chain && h in q.chain
    requires p.chain == s.chain[h := p.chain[h]] && q.chain == s.chain[h := q.chain[h]]
    requires Separated(c, p.chain[h].block, q.chain[h].block)
    requires !SameBlockShape(p.chain[h].block, q.chain[h].block)
    ensures DigestSeparates(c, p, q, q.chain.Keys) && !SameShapes(p, q, q.chain.Keys)
  {
    assert Shared(p, q, q.chain.Keys, h) && !SameShapeAt(p, q, h);
    forall g | g in p.chain && g in q.chain
      ensures SeparatedAt(c, p, q, g)
    {
    }
  }

  /** Two nodes with the same hashes, tail and heights differ on a block in the verdict on its body only. */
  lemma OnlyTheBodyDiffers(c: Crypto, cfg: Config, p: NodeState, q: NodeState, next: Block)
    requires p.tail in p.chain && p.tail == q.tail && p.chain.Keys == q.chain.Keys
    requires p.chain[p.tail].height == q.chain[q.tail].height
    requires Check(c, cfg, p, next) == None && next.prevHash == p.tail
    ensures Check(c, cfg, q, next) == BodyVerdict(c, cfg, next, q.chain[q.tail].ledger)
  {
  }

  lemma MergedLacksLast(c: Crypto, t: Transaction, coinbase: Transaction, l: Utxos, last: UTXOLite)
    requires |t.outputs| >= 2 && last == UTXOLite(t.hash, |t.outputs| - 1) && last !in l && coinbase.hash != t.hash
    ensures last !in ApplyTx(coinbase, ApplyTx(Merged(c, t), l))
  {
    ApplyTxAt(Merged(c, t), l, last);
    ApplyTxAt(coinbase, ApplyTx(Merged(c, t), l), last);
  }

  /** The states after the one block and the other. */
  lemma MergedStates(c: Crypto, cfg: Config, s: NodeState, b: Block)
    requires s.tail in s.chain && b.prevHash in s.chain
    requires |b.txs| == 1 && |b.txs[0].outputs| >= 2 && b.coinbase.hash != b.txs[0].hash
    requires BodyVerdict(c, cfg, b, s.chain[b.prevHash].ledger) == None
    ensures var p, q := Attach(c, s, b), Attach(c, s, MergedBlock(c, b));
      && p.tail == q.tail && p.chain.Keys == q.chain.Keys == s.chain.Keys + {b.hash}
      && p.chain == s.chain[b.hash := p.chain[b.hash]] && q.chain == s.chain[b.hash := q.chain[b.hash]]
      && p.chain[b.hash].block == b && q.chain[b.hash].block == MergedBlock(c, b)
      && p.chain[b.hash].height == q.chain[b.hash].height == s.chain[b.prevHash].height + 1
      && p.chain[b.hash].ledger != q.chain[b.hash].ledger
      && q.chain[b.hash].ledger == ApplyTx(b.coinbase, ApplyTx(Merged(c, b.txs[0]), s.chain[b.prevHash].ledger))
  {
    var l := s.chain[b.prevHash].ledger;
    MergedBody(c, cfg, b, l);
    MergedLedgerDiffers(c, b.txs[0], b.coinbase, l);
  }

  /** Two nodes that start alike and take the one and the other hold one hash with two ledgers. Any digest and any
      float encoding separate what they hold; only the shape of the block tells. */
  lemma MergedBlockSplitsNodes(c: Crypto, cfg: Config, s: NodeState, b: Block)
    requires Mergeable(c, cfg, s, b) && Check(c, cfg, s, MergedBlock(c, b)) == None
    ensures var p, q := Handle(c, cfg, s, b).0, Handle(c, cfg, s, MergedBlock(c, b)).0;
      && b.hash in p.chain && b.hash in q.chain
      && p.chain[b.hash].height == q.chain[b.hash].height
      && p.chain[b.hash].ledger != q.chain[b.hash].ledger
      && DigestSeparates(c, p, q, q.chain.Keys) && !SameShapes(p, q, q.chain.Keys)
  {
    Taken(c, cfg, s, b);
    Taken(c, cfg, s, MergedBlock(c, b));
    MergedStates(c, cfg, s, b);
    MergedSeparated(c, b);
    OneHashDiffers(c, s, Attach(c, s, b), Attach(c, s, MergedBlock(c, b)), b.hash);
  }

  /** Block `next` spends the last output of the one transaction of `b`, and nothing else provides it. */
  ghost predicate SpendsLast(s: NodeState, b: Block, next: Block, i: nat) {
    && b.prevHash in s.chain && |b.txs| == 1 && |b.txs[0].outputs| >= 2
    && next.prevHash == b.hash && next.txs != [] && i < |next.txs[0].inputs|
    && Outpoint(next.txs[0].inputs[i]) == UTXOLite(b.txs[0].hash, |b.txs[0].outputs| - 1)
    && Outpoint(next.txs[0].inputs[i]) !in s.chain[b.prevHash].ledger
  }

  lemma MergedCannotFollow(c: Crypto, cfg: Config, s: NodeState, b: Block, next: Block, i: nat)
    requires Mergeable(c, cfg, s, b) && Check(c, cfg, s, MergedBlock(c, b)) == None && SpendsLast(s, b, next, i)
    ensures var q := Handle(c, cfg, s, MergedBlock(c, b)).0;
      Inv(c, cfg, q) && b.hash in q.chain && BodyVerdict(c, cfg, next, q.chain[b.hash].ledger) == Some(InputSpent)
  {
    var l := s.chain[b.prevHash].ledger;
    Taken(c, cfg, s, b);
    Taken(c, cfg, s, MergedBlock(c, b));
    MergedStates(c, cfg, s, b);
    MergedLacksLast(c, b.txs[0], b.coinbase, l, Outpoint(next.txs[0].inputs[i]));
    SpentFirst(c, cfg, next, Attach(c, s, MergedBlock(c, b)).chain[b.hash].ledger, i);
    HandleKeepsInv(c, cfg, s, MergedBlock(c, b));
  }

  /** The node with the merged block never follows: whatever it receives and does later, it refuses a block on top
      of it that spends the output run together, and never holds that block. */
  lemma MergedNodeNeverFollows(
      c: Crypto, cfg: Config, s: NodeState, b: Block, next: Block, i: nat, steps: seq<Step>)
    requires Mergeable(c, cfg, s, b) && Check(c, cfg, s, MergedBlock(c, b)) == None && SpendsLast(s, b, next, i)
    requires next.hash != GENESIS_HASH
    ensures var u := Run(c, cfg, Handle(c, cfg, s, MergedBlock(c, b)).0, steps);
      && Check(c, cfg, u, next) != None
      && (next.hash in u.chain ==> u.chain[next.hash].block != next)
  {
    var q := Handle(c, cfg, s, MergedBlock(c, b)).0;
    MergedCannotFollow(c, cfg, s, b, next, i);
    NeverValidThere(c, cfg, q, next, steps);
  }

  /** A block that is not valid on its parent is refused for ever, and never held. */
  lemma NeverValidThere(c: Crypto, cfg: Config, q: NodeState, next: Block, steps: seq<Step>)
    requires Inv(c, cfg, q) && next.prevHash in q.chain && next.hash != GENESIS_HASH
    requires BodyVerdict(c, cfg, next, q.chain[next.prevHash].ledger) != None
    ensures var u := Run(c, cfg, q, steps);
      && Check(c, cfg, u, next) != None
      && (next.hash in u.chain ==> u.chain[next.hash].block != next)
  {
    var u := Run(c, cfg, q, steps);
    RunKeepsInv(c, cfg, q, steps);
    assert next.hash in u.chain ==> ValidAt(c, cfg, u, next.hash);
  }

  /** At first it says that an input is spent, where the other node accepts the block. */
  lemma MergedNodeStaysBehind(c: Crypto, cfg: Config, s: NodeState, b: Block, next: Block, i: nat)
    requires Mergeable(c, cfg, s, b) && b.prevHash == s.tail && Check(c, cfg, s, MergedBlock(c, b)) == None
    requires Check(c, cfg, Handle(c, cfg, s, b).0, next) == None && SpendsLast(s, b, next, i)
    ensures Check(c, cfg, Handle(c, cfg, s, MergedBlock(c, b)).0, next) == Some(InputSpent)
  {
    Taken(c, cfg, s, b);
    Taken(c, cfg, s, MergedBlock(c, b));
    MergedStates(c, cfg, s, b);
    MergedCannotFollow(c, cfg, s, b, next, i);
    OnlyTheBodyDiffers(c, cfg, Attach(c, s, b), Attach(c, s, MergedBlock(c, b)), next);
  }

  lemma SpentFirst(c: Crypto, cfg: Config, b: Block, l: Utxos, i: nat)
    requires b.txs != [] && i < |b.txs[0].inputs| && Outpoint(b.txs[0].inputs[i]) !in l
    ensures BodyVerdict(c, cfg, b, l) == Some(InputSpent)
  {
    assert !Present(b.txs[0].inputs, l);
  }
}

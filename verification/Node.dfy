/** The node's objects: the tree of block wrappers, the hash index, the pool, and the mutex-protected
    methods, each proved to be one step of the state machine. */
module Node {
  import opened LedgerOps
  import opened NodeSpec
  import opened Ownership
  import opened Types
  import opened Verdicts
  import Difficulty
  import Encoding

  class BlockWrapper {
    const B: Block
    var Children: seq<BlockWrapper>
    const Parent: BlockWrapper?
    const Height: int
    const L: Ledger

    constructor (b: Block, parent: BlockWrapper?, height: int, l: Ledger)
      ensures B == b && Children == [] && Parent == parent && Height == height && L == l
    {
      B, Children, Parent, Height, L := b, [], parent, height, l;
    }
  }

  class Blockchain {
    /** The first accepted block of the greatest height. */
    var Tail: BlockWrapper
    /** Every accepted block by hash. */
    var Chain: map<Hash, BlockWrapper>

    constructor ()
      ensures fresh(Tail) && fresh(Tail.L) && Tail.L.L == map[]
      ensures Tail.B == GENESIS && Tail.Height == 0 && Tail.Parent == null && Tail.Children == []
      ensures Chain == map[GENESIS_HASH := Tail]
    {
      var l := new Ledger();
      var genesis := new BlockWrapper(GENESIS, null, 0, l);
      Tail, Chain := genesis, map[GENESIS_HASH := genesis];
    }

    /** Put a block on top of `prev`; the tail moves only to a strictly higher block. */
    method Append(b: Block, prev: BlockWrapper, l: Ledger) returns (w: BlockWrapper, tailChange: bool)
      modifies this, prev`Children
      ensures fresh(w) && w.B == b && w.Parent == prev && w.Height == prev.Height + 1 && w.L == l && w.Children == []
      ensures prev.Children == old(prev.Children) + [w]
      ensures Chain == old(Chain)[b.hash := w]
      ensures tailChange <==> w.Height > old(Tail).Height
      ensures Tail == if tailChange then w else old(Tail)
    {
      tailChange := false;
      w := new BlockWrapper(b, prev, prev.Height + 1, l);
      prev.Children := prev.Children + [w];
      Chain := Chain[b.hash := w];
      if w.Height > Tail.Height {
        Tail := w;
        tailChange := true;
      }
    }
  }

  class TransactionPool {
    var TxPool: map<Hash, Transaction>

    constructor ()
      ensures TxPool == map[]
    {
      TxPool := map[];
    }

    method RemoveAll(txs: seq<Transaction>)
      modifies this
      ensures TxPool == WithoutTxs(old(TxPool), txs)
    {
      for i := 0 to |txs|
        invariant TxPool == WithoutTxs(old(TxPool), txs[..i])
      {
        assert txs[..i + 1] == txs[..i] + [txs[i]];
        assert WithoutTxs(old(TxPool), txs[..i + 1]) == WithoutTxs(old(TxPool), txs[..i]) - {txs[i].hash};
        TxPool := TxPool - {txs[i].hash};
      }
      assert txs[..|txs|] == txs;
    }
  }

  class FullNode {
    const crypto: Crypto
    const config: Config
    const publicKey: seq<byte>
    const blockchain: Blockchain
    const txPool: TransactionPool
    /** The state of the node as a value; `Valid` ties it to the objects. */
    ghost var State: NodeState
    /** The objects the node is made of. */
    ghost var Repr: set<object>

    ghost predicate Owns()
      reads this, blockchain
    {
      && this in Repr && blockchain in Repr && txPool in Repr
      && forall h :: h in blockchain.Chain ==> blockchain.Chain[h] in Repr && blockchain.Chain[h].L in Repr
    }

    /** The wrapper filed under `h` holds what the state says, points to its parent, and is one of the
        parent's children. */
    ghost predicate Filed(h: Hash)
      requires Owns() && h in blockchain.Chain
      reads this, blockchain, Repr
    {
      var w := blockchain.Chain[h];
      && h in State.chain && State.chain[h] == Entry(w.B, w.Height, w.L.L)
      && w.B.hash == h
      && if h == GENESIS_HASH then w.Parent == null
         else
           && w.B.prevHash in blockchain.Chain
           && w.Parent == blockchain.Chain[w.B.prevHash]
           && w in blockchain.Chain[w.B.prevHash].Children
    }

    /** Its children are distinct, are in the chain, and point back to it. */
    ghost predicate ChildLinks(h: Hash)
      requires Owns() && h in blockchain.Chain
      reads this, blockchain, Repr
    {
      var w := blockchain.Chain[h];
      && (forall i :: 0 <= i < |w.Children| ==>
            && w.Children[i].Parent == w
            && w.Children[i].B.hash in blockchain.Chain
            && blockchain.Chain[w.Children[i].B.hash] == w.Children[i])
      && (forall i, j :: 0 <= i < j < |w.Children| ==> w.Children[i] != w.Children[j])
    }

    /** The objects say what the state says, and the pointers of the tree are right. */
    ghost predicate Objects()
      reads this, blockchain, Repr
    {
      && Owns()
      && State.pool == txPool.TxPool
      && State.chain.Keys == blockchain.Chain.Keys
      && State.tail in blockchain.Chain && blockchain.Chain[State.tail] == blockchain.Tail
      && (forall h {:trigger Filed(h)} :: h in blockchain.Chain ==> Filed(h))
      && (forall h {:trigger ChildLinks(h)} :: h in blockchain.Chain ==> ChildLinks(h))
    }

    ghost predicate Valid()
      reads this, blockchain, Repr
      ensures Valid() ==> this in Repr
    {
      Objects() && config.Valid() && Inv(crypto, config, State)
    }

    constructor (crypto: Crypto, config: Config, publicKey: seq<byte>)
      requires config.Valid()
      ensures Valid() && fresh(Repr)
      ensures this.crypto == crypto && this.config == config && this.publicKey == publicKey
      ensures State == INITIAL
    {
      this.crypto, this.config, this.publicKey := crypto, config, publicKey;
      blockchain := new Blockchain();
      txPool := new TransactionPool();
      State := INITIAL;
      new;
      Repr := {this, blockchain, txPool, blockchain.Tail, blockchain.Tail.L};
      InitialInv(crypto, config);
    }

    method AddTransactionToPool(tx: Transaction) returns (err: Option<Error>)
      requires Valid()
      modifies this, txPool
      ensures Valid()
      ensures State == Next(crypto, config, old(State), AddTx(tx)) && Repr == old(Repr)
      ensures err == if tx.hash in old(State).pool then Some(TxExists) else None
    {
      NextKeepsInv(crypto, config, State, AddTx(tx));
      if tx.hash in txPool.TxPool {
        return Some(TxExists);
      }
      txPool.TxPool := txPool.TxPool[tx.hash := tx];
      State := State.(pool := txPool.TxPool);
      ChainKept();
      return None;
    }

    method RemoveTransactionFromPool(tx: Transaction)
      requires Valid()
      modifies this, txPool
      ensures Valid()
      ensures State == Next(crypto, config, old(State), RemoveTx(tx)) && Repr == old(Repr)
    {
      NextKeepsInv(crypto, config, State, RemoveTx(tx));
      txPool.TxPool := txPool.TxPool - {tx.hash};
      State := State.(pool := txPool.TxPool);
      ChainKept();
    }

    twostate lemma ChainKept()
      requires old(Valid()) && Repr == old(Repr) && State.chain == old(State).chain
      requires forall o :: o in Repr && o != this && o != txPool ==> unchanged(o)
      ensures Owns() && forall h :: h in blockchain.Chain ==> Filed(h) && ChildLinks(h)
    {
      forall h | h in blockchain.Chain
        ensures Filed(h) && ChildLinks(h)
      {
        assert old(Filed(h)) && old(ChildLinks(h));
        assert unchanged(blockchain.Chain[h]) && unchanged(blockchain.Chain[h].L);
      }
    }

    /** A wrapper of the chain, as the state describes it. */
    lemma At(h: Hash)
      requires Objects() && h in State.chain
      ensures h in blockchain.Chain
      ensures var w := blockchain.Chain[h];
        && State.chain[h] == Entry(w.B, w.Height, w.L.L) && w.B.hash == h
        && (w.Parent == null <==> h == GENESIS_HASH)
        && (h != GENESIS_HASH ==>
              w.B.prevHash in blockchain.Chain && w.Parent == blockchain.Chain[w.B.prevHash])
    {
      assert Filed(h);
    }

    function GetHeight(): (height: int)
      requires Valid()
      reads this, blockchain, Repr
      ensures height == State.chain[State.tail].height
    {
      At(State.tail);
      blockchain.Tail.Height
    }

    function GetTail(): (tail: BlockWrapper)
      requires Valid()
      reads this, blockchain, Repr
      ensures tail in Repr && tail.B == State.chain[State.tail].block && tail.B.hash == State.tail
    {
      At(State.tail);
      blockchain.Tail
    }

    /** A copy of the ledger `depth` blocks below the tail. */
    method GetLedgerSnapshotAtDepth(depth: int) returns (l: Ledger)
      requires Valid()
      ensures Valid() && fresh(l)
      ensures HashAtDepth(State, depth) in State.chain
      ensures l.L == State.chain[HashAtDepth(State, depth)].ledger
    {
      var tail := blockchain.Tail;
      ghost var p := MainChain(State);
      ghost var k := |p| - 1;
      var i := 0;
      while i < depth
        invariant 0 <= i && 0 <= k < |p|
        invariant k == |p| - 1 - i
        invariant p[k] in blockchain.Chain && tail == blockchain.Chain[p[k]]
        invariant i <= depth || i == 0
      {
        At(p[k]);
        HeightBound(State, p[k]);
        if tail.Parent == null {
          break;
        }
        PathLink(State, State.tail, k - 1);
        tail := tail.Parent;
        k, i := k - 1, i + 1;
      }
      At(p[k]);
      l := GetLedgerDeepCopy(tail.L);
    }

    /** The outputs of one key in the confirmed ledger. */
    method GetUtxoForPublicKey(pk: seq<byte>) returns (res: Ledger)
      requires Valid()
      ensures Valid() && fresh(res)
      ensures HashAtDepth(State, config.confirmation) in State.chain
      ensures var confirmed := State.chain[HashAtDepth(State, config.confirmation)].ledger;
        && res.L == OwnedBy(confirmed, pk)
        && (forall k :: k in res.L <==> k in confirmed && confirmed[k].publicKey == pk)
        && (forall k :: k in res.L ==> res.L[k] == confirmed[k])
    {
      var l := GetLedgerSnapshotAtDepth(config.confirmation);
      res := SelectOwned(l, pk);
    }

    /** Validate a block and attach it to its parent. */
    method HandleNewBlock(b: Block) returns (tailChange: bool, outOfSync: bool, err: Option<Error>)
      requires Valid()
      modifies Repr
      ensures Valid()
      ensures (State, Reply(tailChange, outOfSync, err)) == Handle(crypto, config, old(State), b)
      ensures outOfSync <==> LacksParent(crypto, config, old(State), b)
      ensures forall o :: o in Repr && o !in old(Repr) ==> fresh(o)
    {
      var l: Ledger;
      err, l := ValidateBlock(b);
      NotFoundExactly(crypto, config, State, b);
      if err.Some? {
        return false, err.value.ParentNotFound?, err;
      }
      tailChange := AcceptBlock(b, l);
      outOfSync := false;
    }

    /** Attach a block that passed every check. */
    method AcceptBlock(b: Block, l: Ledger) returns (tailChange: bool)
      requires Valid() && Check(crypto, config, State, b) == None
      requires b.prevHash in State.chain && l.L == BlockLedger(crypto, b, State.chain[b.prevHash].ledger)
      requires l !in Repr && b.prevHash in blockchain.Chain
      modifies Repr
      ensures Valid()
      ensures (State, Reply(tailChange, false, None)) == Handle(crypto, config, old(State), b)
      ensures forall o :: o in Repr && o !in old(Repr) ==> o == l || fresh(o)
    {
      Taken(crypto, config, State, b);
      HandleKeepsInv(crypto, config, State, b);
      tailChange := AddBlock(b, blockchain.Chain[b.prevHash], l);
    }

    /** The checks of the parent. */
    method ValidatePlace(b: Block) returns (err: Option<Error>)
      requires Objects()
      ensures State.tail in State.chain && err == PlaceVerdict(config, State, b)
      ensures err.None? ==> b.prevHash in blockchain.Chain
    {
      At(State.tail);
      if b.prevHash !in blockchain.Chain {
        return Some(ParentNotFound);
      }
      At(b.prevHash);
      if blockchain.Tail.Height - blockchain.Chain[b.prevHash].Height > config.confirmation {
        return Some(ParentTooDeep);
      }
      return None;
    }

    /** The first half of handling a block: every check, in order, on a copy of the parent's ledger. */
    method ValidateBlock(b: Block) returns (err: Option<Error>, l: Ledger)
      requires Valid()
      ensures Valid() && fresh(l)
      ensures err == Check(crypto, config, State, b)
      ensures err.None? ==>
        b.prevHash in blockchain.Chain && l.L == BlockLedger(crypto, b, State.chain[b.prevHash].ledger)
    {
      l := new Ledger();
      At(State.tail);
      if b.hash in blockchain.Chain {
        return Some(BlockExists), l;
      }
      err := ValidateHeader(crypto, config, b);
      if err.Some? {
        return err, l;
      }
      err := ValidatePlace(b);
      if err.Some? {
        return err, l;
      }
      At(b.prevHash);
      var prev := blockchain.Chain[b.prevHash];
      l := GetLedgerDeepCopy(prev.L);
      err := ValidateBody(crypto, config, b, l);
    }

    /** The second half of handling a block: link the new wrapper and drop its transactions from the pool. */
    method AddBlock(b: Block, prev: BlockWrapper, l: Ledger) returns (tailChange: bool)
      requires Objects() && b.hash !in blockchain.Chain && b.hash != GENESIS_HASH
      requires b.prevHash in blockchain.Chain && prev == blockchain.Chain[b.prevHash]
      requires l !in Repr
      modifies Repr
      ensures Objects()
      ensures old(State).tail in old(State).chain && b.prevHash in old(State).chain
      ensures State == Grown(old(State), b, l.L)
      ensures tailChange <==> old(State).chain[b.prevHash].height + 1 > old(State).chain[old(State).tail].height
      ensures b.hash in blockchain.Chain && fresh(blockchain.Chain[b.hash])
      ensures Repr == old(Repr) + {blockchain.Chain[b.hash], l}
    {
      assert Filed(State.tail) && Filed(b.prevHash);
      forall h | h in blockchain.Chain
        ensures blockchain.Chain[h].B.hash == h
      {
        assert Filed(h);
      }
      var w;
      w, tailChange := blockchain.Append(b, prev, l);
      txPool.RemoveAll(b.txs);
      State := Grown(State, b, l.L);
      Repr := Repr + {w, l};
      GrewObjects(b);
    }

    /** What adding `b` did to the objects and to the state. */
    twostate predicate Grew(b: Block)
      reads this, blockchain, txPool, Repr
    {
      && old(Objects()) && b.hash !in old(blockchain.Chain) && b.hash != GENESIS_HASH
      && b.prevHash in old(blockchain.Chain) && b.hash in blockchain.Chain
      && old(State).tail in old(State).chain && b.prevHash in old(State).chain
      && var prev, w := old(blockchain.Chain[b.prevHash]), blockchain.Chain[b.hash];
         && blockchain.Chain == old(blockchain.Chain)[b.hash := w]
         && blockchain.Tail == (if w.Height > old(blockchain.Tail).Height then w else old(blockchain.Tail))
         && txPool.TxPool == WithoutTxs(old(txPool.TxPool), b.txs)
         && Repr == old(Repr) + {w, w.L} && w !in old(Repr)
         && State == Grown(old(State), b, w.L.L)
         && w.B == b && w.Parent == prev && w.Height == prev.Height + 1 && w.Children == []
         && prev in Repr && prev.Children == old(prev.Children) + [w]
         && forall o :: o in old(Repr) && o != this && o != blockchain && o != txPool && o != prev ==> unchanged(o)
    }

    twostate lemma GrewFiled(b: Block)
      requires Grew(b)
      ensures Owns() && forall h :: h in blockchain.Chain ==> Filed(h)
    {
      assert Owns();
      assert old(Filed(b.prevHash));
      forall h | h in blockchain.Chain
        ensures Filed(h)
      {
        if h != b.hash {
          assert old(Filed(h));
        }
      }
    }

    twostate lemma GrewChildLinks(b: Block)
      requires Grew(b)
      ensures Owns() && forall h :: h in blockchain.Chain ==> ChildLinks(h)
    {
      assert Owns();
      forall h | h in blockchain.Chain
        ensures ChildLinks(h)
      {
        if h != b.hash {
          assert old(Filed(h)) && old(ChildLinks(h));
        }
      }
    }

    /** Linking a wrapper on top of its parent keeps every pointer of the tree right. */
    twostate lemma GrewObjects(b: Block)
      requires Grew(b)
      ensures Objects()
    {
      GrewFiled(b);
      GrewChildLinks(b);
      assert old(Filed(b.prevHash));
      assert old(Filed(State.tail));
    }

    /** A window of the longest chain, in ascending height. */
    method GetBlocks(hash: Hash, number: int) returns (res: seq<Block>, synced: bool)
      requires Valid()
      ensures Valid()
      ensures (res, synced) == Window(State, hash, number)
    {
      var dq;
      dq, synced := CollectBlocks(hash, number);
      res := [];
      for i := 0 to |dq|
        invariant res == dq[..i]
      {
        res := res + [dq[i]];
      }
      assert res == dq;
    }

    /** The walk from the tail towards genesis that fills the deque. */
    method CollectBlocks(hash: Hash, number: int) returns (dq: seq<Block>, synced: bool)
      requires Objects() && Tree(State)
      ensures (dq, synced) == Window(State, hash, number)
    {
      ghost var n := if number < 0 then 0 else number;
      dq := [];
      var tail: BlockWrapper := blockchain.Tail;
      synced := true;
      // dq holds at most n of the main-chain blocks from height lo on.
      ghost var lo := |MainChain(State)|;
      ghost var found := true;
      At(State.tail);
      WalkStart(State, hash);
      while tail.B.hash != hash
        invariant Walking(State, hash, lo)
        invariant tail.B.hash == MainChain(State)[lo - 1]
        invariant tail.B.hash in blockchain.Chain && tail == blockchain.Chain[tail.B.hash]
        invariant dq == Take(MainBlocks(State, lo), n) && (synced <==> |MainBlocks(State, lo)| <= n)
        decreases lo
      {
        At(tail.B.hash);
        WalkStep(State, hash, lo);
        var dropped;
        dq, dropped := PushFront(dq, tail.B, number, MainBlocks(State, lo));
        lo := lo - 1;
        synced := synced && !dropped;
        if tail.Parent == null {
          found := false;
          break;
        }
        At(tail.B.prevHash);
        if tail.Parent.B.hash == GENESIS_HASH {
          found := false;
          break;
        }
        tail := tail.Parent;
      }
      if found {
        WalkFound(State, hash, lo);
      }
      assert lo == FirstToSend(State, hash);
    }
  }

  /** The walk down the longest chain has passed the heights from `lo` on without meeting `hash`. */
  ghost predicate Walking(s: NodeState, hash: Hash, lo: int) {
    && Tree(s)
    && 1 <= lo <= |MainChain(s)|
    && (lo == 1 ==> |MainChain(s)| == 1)
    && forall j :: lo <= j < |MainChain(s)| ==> MainChain(s)[j] != hash
  }

  lemma WalkStart(s: NodeState, hash: Hash)
    requires Tree(s)
    ensures Walking(s, hash, |MainChain(s)|)
  {
  }

  /** One more block passed: the walk is over at genesis or just above it, and goes on otherwise. */
  lemma WalkStep(s: NodeState, hash: Hash, lo: int)
    requires Walking(s, hash, lo) && MainChain(s)[lo - 1] != hash
    ensures var h := MainChain(s)[lo - 1];
      && MainBlocks(s, lo - 1) == [s.chain[h].block] + MainBlocks(s, lo)
      && (h == GENESIS_HASH ==> FirstToSend(s, hash) == lo - 1)
      && (h != GENESIS_HASH ==>
            var parent := s.chain[h].block.prevHash;
            && lo >= 2 && parent == MainChain(s)[lo - 2]
            && (parent == GENESIS_HASH ==> FirstToSend(s, hash) == lo - 1)
            && (parent != GENESIS_HASH ==> Walking(s, hash, lo - 1)))
  {
    var p := MainChain(s);
    HeightBound(s, p[lo - 1]);
    if lo > 1 {
      PathLink(s, s.tail, lo - 2);
      HeightBound(s, p[lo - 2]);
    }
    NotPassed(s, hash, lo - 1);
  }

  /** If `hash` is on the longest chain it is below the heights already passed. */
  lemma NotPassed(s: NodeState, hash: Hash, lo: nat)
    requires Tree(s) && lo <= |MainChain(s)|
    requires forall j :: lo <= j < |MainChain(s)| ==> MainChain(s)[j] != hash
    ensures hash in MainChain(s) ==> s.chain[hash].height < lo && MainChain(s)[s.chain[hash].height] == hash
  {
    var p := MainChain(s);
    if hash in p {
      var i :| 0 <= i < |p| && p[i] == hash;
      assert s.chain[p[i]].height == i;
    }
  }

  lemma WalkFound(s: NodeState, hash: Hash, lo: int)
    requires Walking(s, hash, lo) && MainChain(s)[lo - 1] == hash
    ensures FirstToSend(s, hash) == lo
  {
    NotPassed(s, hash, lo);
    assert s.chain[MainChain(s)[lo - 1]].height == lo - 1;
  }

  /** Push a block in front of a deque that holds the first blocks of `bs`, and drop the last if it is over-full. */
  method PushFront(dq: seq<Block>, b: Block, number: int, ghost bs: seq<Block>)
    returns (res: seq<Block>, dropped: bool)
    requires var n := if number < 0 then 0 else number; dq == Take(bs, n)
    ensures var n := if number < 0 then 0 else number;
      res == Take([b] + bs, n) && (dropped <==> |[b] + bs| > n)
  {
    res, dropped := [b] + dq, false;
    TakeCons(b, bs, if number < 0 then 0 else number);
    if |res| > number {
      dropped := true;
      res := res[..|res| - 1];
    }
  }

  /** The checks of difficulty and hash. */
  method ValidateHeader(c: Crypto, cfg: Config, b: Block) returns (err: Option<Error>)
    ensures err == HeaderVerdict(c, cfg, b)
  {
    var matched := Difficulty.MatchDifficulty(c, b, cfg.difficulty);
    if matched.Err? {
      return Some(matched.error);
    }
    if !matched.value.0 {
      return Some(DifficultyMismatch);
    }
    var blockBytes := Encoding.GetBlockBytes(c, b);
    if Encoding.BytesToHex(c.sha256(blockBytes.value)) != b.hash {
      return Some(BadBlockHash);
    }
    return None;
  }

  /** The checks against the ledger, which end by applying the block to it. */
  method ValidateBody(c: Crypto, cfg: Config, b: Block, l: Ledger) returns (err: Option<Error>)
    modifies l
    ensures err == BodyVerdict(c, cfg, b, old(l.L))
    ensures err.None? ==> l.L == BlockLedger(c, b, old(l.L))
  {
    var fee := CalcTxFee(b.txs, l);
    if fee.Err? {
      return Some(fee.error);
    }
    err := IsValidCoinbase(c, b.coinbase, fee.value + cfg.reward);
    if err.Some? {
      return err;
    }
    var errTxs: seq<Transaction>;
    errTxs, err := HandleTransactions(c, b.txs, l);
    if err.Some? {
      return err;
    }
    ProcessInputsAndOutputs(b.coinbase, l);
  }

  method SelectOwned(l: Ledger, pk: seq<byte>) returns (res: Ledger)
    ensures fresh(res) && res.L == OwnedBy(l.L, pk)
  {
    res := new Ledger();
    var todo := l.L.Keys;
    while todo != {}
      invariant todo <= l.L.Keys
      invariant res.L == OwnedBy(l.L - todo, pk)
      invariant fresh(res)
      decreases todo
    {
      var k :| k in todo;
      var same := Encoding.IsSameBytes(pk, l.L[k].publicKey);
      if same {
        res.L := res.L[k := l.L[k]];
      }
      todo := todo - {k};
    }
    assert l.L - {} == l.L;
  }

  /** Pushing in front of a full window drops its last block. */
  lemma TakeCons(b: Block, bs: seq<Block>, n: nat)
    ensures var dq := [b] + Take(bs, n);
      Take([b] + bs, n) == if |dq| > n then dq[..|dq| - 1] else dq
  {
  }
}

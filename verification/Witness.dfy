/** Inputs on which a comment of the program is wrong, reached from a new node by accepted blocks. */
module Witness {
  import opened Encoding
  import opened Finality
  import opened LedgerSpec
  import opened NodeSpec
  import opened Safety
  import opened Types
  import Agreement
  import Difficulty
  import Mining
  import Server

  function ByteOfLength(bs: seq<byte>): byte {
    (|bs| % 256) as byte
  }

  /** A digest that depends on the length of the message, and signatures that always verify. */
  function Toy(floatBits: real -> Word64): Crypto {
    Crypto(bs => [ByteOfLength(bs)] + seq(31, _ => 0), floatBits, bs => Some(bs), (_, _, _) => true)
  }

  ghost predicate DigestOfLength(c: Crypto, bs: seq<byte>) {
    c.sha256(bs) == c.sha256(Zeros(|bs|))
  }

  ghost predicate DigestsApart(c: Crypto, m: nat, n: nat) {
    c.sha256(Zeros(m)) != c.sha256(Zeros(n))
  }

  /** The digest is one of the length, different for lengths below 256, and all keys and signatures are good. */
  ghost predicate ByLength(c: Crypto) {
    && (forall bs {:trigger DigestOfLength(c, bs)} :: DigestOfLength(c, bs))
    && (forall m: nat, n: nat {:trigger DigestsApart(c, m, n)} :: m < n < 256 ==> DigestsApart(c, m, n))
    && (forall pk :: c.parseKey(pk).Some?)
    && (forall msg, pk, signature :: c.verify(msg, pk, signature))
  }

  lemma ToyByLength(floatBits: real -> Word64)
    ensures ByLength(Toy(floatBits))
  {
    var c := Toy(floatBits);
    forall m: nat, n: nat | m < n < 256
      ensures DigestsApart(c, m, n)
    {
      assert c.sha256(Zeros(m))[0] != c.sha256(Zeros(n))[0];
    }
    forall bs
      ensures DigestOfLength(c, bs)
    {
      assert c.sha256(bs) == c.sha256(Zeros(|bs|));
    }
  }

  /** No work is needed, and a block may pay one coin. */
  ghost predicate Easy(cfg: Config) {
    cfg.Valid() && cfg.difficulty == 0 && 1.0 <= cfg.reward
  }

  ghost function IdOf(c: Crypto, length: nat): Hash {
    BytesToHex(c.sha256(Zeros(length)))
  }

  lemma IdOfDigest(c: Crypto, bs: seq<byte>)
    requires ByLength(c)
    ensures BytesToHex(c.sha256(bs)) == IdOf(c, |bs|)
    ensures |IdOf(c, |bs|)| == 64 && HexToBytes(IdOf(c, |bs|)).Ok? && IdOf(c, |bs|) != GENESIS_HASH
  {
    HexRoundTrip(c.sha256(bs));
    assert DigestOfLength(c, bs);
  }

  lemma IdsDiffer(c: Crypto, m: nat, n: nat)
    requires ByLength(c)
    requires m < 256 && n < 256 && m != n
    ensures IdOf(c, m) != IdOf(c, n)
  {
    HexRoundTrip(c.sha256(Zeros(m)));
    HexRoundTrip(c.sha256(Zeros(n)));
    assert if m < n then DigestsApart(c, m, n) else DigestsApart(c, n, m);
  }

  // ----- blocks that pay one coin -----

  /** One coin to a key of `k` bytes. */
  ghost function Coin(c: Crypto, k: nat): Transaction {
    Transaction(IdOf(c, 16 + k), [], [Output(1.0, Zeros(k))], 0)
  }

  lemma CoinBytes(c: Crypto, k: nat)
    requires ByLength(c)
    ensures TxBytes(c, Coin(c, k), false).Ok? && |TxBytes(c, Coin(c, k), false).value| == 16 + k
    ensures TxBytes(c, Coin(c, k), true).Ok? && |TxBytes(c, Coin(c, k), true).value| == 48 + k
    ensures HashOk(c, Coin(c, k))
  {
    var t := Coin(c, k);
    VarintDefined(0);
    assert t.outputs[1..] == [];
    assert OutputsBytes(c, t.outputs) == OutputBytes(c, t.outputs[0]) + [];
    IdOfDigest(c, Zeros(16 + k));
    IdOfDigest(c, TxBytes(c, t, false).value);
  }

  /** A hash that is that of genesis or a digest. */
  ghost predicate Base(c: Crypto, prev: Hash) {
    prev == GENESIS_HASH || exists n :: prev == IdOf(c, n)
  }

  lemma NotGenesis(c: Crypto, n: nat)
    requires ByLength(c)
    ensures IdOf(c, n) != GENESIS_HASH && Base(c, IdOf(c, n))
  {
    IdOfDigest(c, Zeros(n));
  }

  lemma BaseBytes(c: Crypto, prev: Hash)
    requires ByLength(c) && Base(c, prev)
    ensures HexToBytes(prev).Ok? && |HexToBytes(prev).value| == if prev == GENESIS_HASH then 1 else 32
  {
    if prev == GENESIS_HASH {
      GenesisHex();
    } else {
      var n :| prev == IdOf(c, n);
      IdOfDigest(c, Zeros(n));
    }
  }

  /** The length of what such a block is hashed from. */
  ghost function BlockLength(prev: Hash, k: nat): nat {
    (if prev == GENESIS_HASH then 57 else 88) + k
  }

  ghost function Mined(c: Crypto, prev: Hash, k: nat): Block {
    Block(IdOf(c, BlockLength(prev, k)), prev, [], Coin(c, k), 0)
  }

  lemma EasyDigest(digest: Digest)
    ensures Difficulty.ZeroTest(digest, 0) == Ok(true)
  {
    Difficulty.BigEndianBound(digest);
    Difficulty.Pow256(32);
  }

  lemma HeaderByLength(c: Crypto, cfg: Config, b: Block, n: nat)
    requires ByLength(c) && Easy(cfg) && b.hash == IdOf(c, n)
    requires BlockBytes(c, b).Ok? && |BlockBytes(c, b).value| == n
    ensures HeaderOk(c, cfg, b)
  {
    IdOfDigest(c, BlockBytes(c, b).value);
    EasyDigest(c.sha256(BlockBytes(c, b).value));
  }

  lemma MinedHeader(c: Crypto, cfg: Config, prev: Hash, k: nat)
    requires ByLength(c)
    requires Easy(cfg) && Base(c, prev)
    ensures HeaderOk(c, cfg, Mined(c, prev, k))
  {
    var b := Mined(c, prev, k);
    VarintDefined(0);
    BaseBytes(c, prev);
    CoinBytes(c, k);
    HeaderByLength(c, cfg, b, BlockLength(prev, k));
  }

  lemma MinedBody(c: Crypto, cfg: Config, prev: Hash, k: nat, l: Utxos)
    requires ByLength(c)
    requires Easy(cfg)
    ensures BodyVerdict(c, cfg, Mined(c, prev, k), l) == None
  {
    CoinBytes(c, k);
    assert Fee([], l) == Ok(0.0);
  }

  ghost function First(c: Crypto): Block {
    Mined(c, GENESIS_HASH, 0)
  }

  lemma GenesisHex()
    ensures HexToBytes(GENESIS_HASH).Ok?
  {
    assert GENESIS_HASH[2..] == "";
  }

  /** The ledger with the coin of the first block. */
  ghost function Owned(c: Crypto): Utxos {
    map[UTXOLite(IdOf(c, 16), 0) := Output(1.0, [])]
  }

  lemma ReachedOne(c: Crypto, cfg: Config, a: Step)
    ensures Reached(c, cfg, [a]) == Next(c, cfg, INITIAL, a)
  {
    assert [a][1..] == [] && [a][0] == a;
    assert Run(c, cfg, Next(c, cfg, INITIAL, a), []) == Next(c, cfg, INITIAL, a);
  }

  lemma ReachedTwo(c: Crypto, cfg: Config, a: Step, b: Step)
    ensures Reached(c, cfg, [a, b]) == Next(c, cfg, Reached(c, cfg, [a]), b)
  {
    ReachedOne(c, cfg, a);
    RunTwo(c, cfg, INITIAL, a, b, []);
    assert [a, b] + [] == [a, b];
  }

  lemma ReachedThree(c: Crypto, cfg: Config, a: Step, b: Step, d: Step)
    ensures Reached(c, cfg, [a, b, d]) == Next(c, cfg, Reached(c, cfg, [a, b]), d)
  {
    ReachedTwo(c, cfg, a, b);
    ReachedOne(c, cfg, a);
    RunTwo(c, cfg, INITIAL, a, b, [d]);
    assert [a, b] + [d] == [a, b, d] && [d][1..] == [];
  }

  lemma FirstLedger(c: Crypto)
    ensures ApplyTx(Coin(c, 0), map[]) == Owned(c)
  {
    var t := Coin(c, 0);
    assert Zeros(0) == [];
    forall k: UTXOLite
      ensures k in ApplyTx(t, map[]) <==> k in Owned(c)
      ensures k in Owned(c) ==> ApplyTx(t, map[])[k] == Owned(c)[k]
    {
      ApplyTxAt(t, map[], k);
    }
  }

  lemma FirstOnGenesis(c: Crypto, cfg: Config)
    requires ByLength(c) && Easy(cfg)
    ensures EmptyBlockOn(c, cfg, INITIAL, First(c))
    ensures CoinbaseVerdict(c, First(c).coinbase, cfg.reward) == None
  {
    InitialInv(c, cfg);
    GenesisHex();
    IdOfDigest(c, Zeros(57));
    MinedHeader(c, cfg, GENESIS_HASH, 0);
    CoinBytes(c, 0);
  }

  lemma AfterFirst(c: Crypto, cfg: Config)
    requires ByLength(c) && Easy(cfg)
    ensures var s := Reached(c, cfg, [Receive(First(c))]);
      && s.tail == First(c).hash && First(c).hash in s.chain
      && s.chain[s.tail].block == First(c) && s.chain[s.tail].height == 1
      && s.chain[s.tail].ledger == Owned(c)
      && s.chain.Keys == {GENESIS_HASH, First(c).hash} && s.pool == map[]
      && History(Branch(s, s.tail)) == [Coin(c, 0)]
  {
    ReachedOne(c, cfg, Receive(First(c)));
    FirstOnGenesis(c, cfg);
    EmptyBlockArrives(c, cfg, INITIAL, First(c));
    FirstLedger(c);
    assert History([]) + [Coin(c, 0)] == [Coin(c, 0)];
  }

  // ----- a coinbase that comes twice -----

  lemma OneCoin(c: Crypto)
    ensures NetIssue([Coin(c, 0)]) == 1.0 && Total(Owned(c)) == 1.0
  {
    var t, k := Coin(c, 0), UTXOLite(IdOf(c, 16), 0);
    assert [t][..0] == [] && t.outputs[1..] == [];
    assert TotalOut(t.outputs) == 1.0 && NetIssue([]) == 0.0;
    SumRemove(Owned(c), k, Value);
    assert Owned(c) - {k} == map[];
  }

  lemma SecondHash(c: Crypto)
    requires ByLength(c)
    ensures First(c).hash == IdOf(c, 57) && Base(c, First(c).hash)
    ensures Mined(c, First(c).hash, 0).hash !in {GENESIS_HASH, First(c).hash}
  {
    IdOfDigest(c, Zeros(57));
    assert BlockLength(First(c).hash, 0) == 88;
    IdOfDigest(c, Zeros(88));
    IdsDiffer(c, 57, 88);
  }

  lemma SecondOnFirst(c: Crypto, cfg: Config)
    requires ByLength(c) && Easy(cfg)
    ensures EmptyBlockOn(c, cfg, Reached(c, cfg, [Receive(First(c))]), Mined(c, First(c).hash, 0))
  {
    AfterFirst(c, cfg);
    SecondHash(c);
    MinedHeader(c, cfg, First(c).hash, 0);
  }

  /** Two accepted blocks with one coinbase issue two coins and leave one. */
  lemma RepeatedCoinbaseHappens(c: Crypto, cfg: Config)
    requires ByLength(c) && Easy(cfg)
    ensures var second := Mined(c, First(c).hash, 0);
      var s := Reached(c, cfg, [Receive(First(c)), Receive(second)]);
      && s.tail == second.hash && second.hash in s.chain && second.coinbase == First(c).coinbase
      && NetIssue(History(Branch(s, s.tail))) == 2.0
      && Total(s.chain[s.tail].ledger) == 1.0
  {
    var second := Mined(c, First(c).hash, 0);
    var s := Reached(c, cfg, [Receive(First(c))]);
    AfterFirst(c, cfg);
    SecondOnFirst(c, cfg);
    ReachedTwo(c, cfg, Receive(First(c)), Receive(second));
    IdOfDigest(c, Zeros(57));
    RepeatedCoinbaseOverwrites(c, cfg, s, second);
    OneCoin(c);
  }

  // ----- blocks with one transaction -----

  /** A transaction of `m` bytes with its hash, and one coin to a key of `k` bytes. */
  ghost function OneTx(c: Crypto, prev: Hash, t: Transaction, m: nat, k: nat): Block {
    Block(IdOf(c, (if prev == GENESIS_HASH then 57 else 88) + m + k), prev, [t], Coin(c, k), 0)
  }

  lemma OneTxBytes(c: Crypto, prev: Hash, t: Transaction, m: nat, k: nat)
    requires ByLength(c) && Base(c, prev)
    requires TxBytes(c, t, true).Ok? && |TxBytes(c, t, true).value| == m
    ensures var r := BlockBytes(c, OneTx(c, prev, t, m, k));
      r.Ok? && |r.value| == (if prev == GENESIS_HASH then 57 else 88) + m + k
  {
    VarintDefined(0);
    BaseBytes(c, prev);
    CoinBytes(c, k);
    assert [t][1..] == [];
    assert TxsBytes(c, [t]) == Ok(TxBytes(c, t, true).value + []);
  }

  lemma OneTxHeader(c: Crypto, cfg: Config, prev: Hash, t: Transaction, m: nat, k: nat)
    requires ByLength(c) && Easy(cfg) && Base(c, prev)
    requires TxBytes(c, t, true).Ok? && |TxBytes(c, t, true).value| == m
    ensures HeaderOk(c, cfg, OneTx(c, prev, t, m, k))
  {
    var b, n := OneTx(c, prev, t, m, k), (if prev == GENESIS_HASH then 57 else 88) + m + k;
    assert b.hash == IdOf(c, n);
    OneTxBytes(c, prev, t, m, k);
    HeaderByLength(c, cfg, b, n);
  }

  /** A block on the tail whose one transaction is valid and pays no fee. */
  ghost predicate OneTxOn(c: Crypto, cfg: Config, s: NodeState, b: Block, t: Transaction) {
    && Easy(cfg) && Inv(c, cfg, s) && b.prevHash == s.tail && b.txs == [t]
    && HeaderOk(c, cfg, b) && b.hash !in s.chain
    && ValidTx(c, t, s.chain[s.tail].ledger) && TotalOut(t.outputs) == TotalIn(t.inputs, s.chain[s.tail].ledger)
    && CoinbaseVerdict(c, b.coinbase, cfg.reward) == None
  }

  /** Block `b` is the new tail. */
  ghost predicate OneTxTaken(c: Crypto, s: NodeState, s': NodeState, b: Block, t: Transaction) {
    && s.tail in s.chain && s'.tail == b.hash && b.hash in s'.chain
    && s'.chain[b.hash].ledger == ApplyTx(b.coinbase, ApplyTx(t, s.chain[s.tail].ledger))
    && s'.chain.Keys == s.chain.Keys + {b.hash} && s'.pool == s.pool - {t.hash}
  }

  lemma OneTxArrives(c: Crypto, cfg: Config, s: NodeState, b: Block, t: Transaction)
    requires OneTxOn(c, cfg, s, b, t)
    ensures var s' := Next(c, cfg, s, Receive(b));
      Inv(c, cfg, s') && OneTxTaken(c, s, s', b, t)
  {
    Agreement.SingleTxBatch(c, t, s.chain[s.tail].ledger);
    assert Check(c, cfg, s, b) == None;
    Taken(c, cfg, s, b);
    HandleKeepsInv(c, cfg, s, b);
    assert WithoutTxs(s.pool, [t]) == s.pool - {t.hash};
  }

  lemma OneTxHistory(c: Crypto, cfg: Config, s: NodeState, b: Block, t: Transaction)
    requires OneTxOn(c, cfg, s, b, t)
    ensures var s' := Next(c, cfg, s, Receive(b));
      && Inv(c, cfg, s') && b.hash in s'.chain
      && Branch(s', b.hash) == Branch(s, s.tail) + [b]
      && History(Branch(s', b.hash)) == History(Branch(s, s.tail)) + [t, b.coinbase]
  {
    var s' := Next(c, cfg, s, Receive(b));
    OneTxArrives(c, cfg, s, b, t);
    Agreement.SingleTxBatch(c, t, s.chain[s.tail].ledger);
    Taken(c, cfg, s, b);
    HandleKeepsInv(c, cfg, s, b);
    ExtendsBranch(s, s', s.tail);
    assert Linked(s', b.hash);
    var bs := Branch(s', b.hash);
    assert bs[..|bs| - 1] == Branch(s, s.tail);
    assert [t] + [b.coinbase] == [t, b.coinbase];
  }

  lemma CoinVerdict(c: Crypto, cfg: Config, k: nat)
    requires ByLength(c) && Easy(cfg)
    ensures CoinbaseVerdict(c, Coin(c, k), cfg.reward) == None
  {
    CoinBytes(c, k);
  }

  // ----- transfers -----

  /** Spends the one coin of the ledger, keeping `value` of it. */
  ghost function Spend(c: Crypto, value: real): Transaction {
    Transaction(IdOf(c, 57), [Input(IdOf(c, 16), 0, [])], [Output(value, Zeros(1))], 0)
  }

  /** A transaction from one output, named by a digest, to a key of `k` bytes. */
  lemma TransferBytes(c: Crypto, t: Transaction, m: nat, k: nat)
    requires ByLength(c)
    requires |t.inputs| == 1 && Outpoint(t.inputs[0]) == UTXOLite(IdOf(c, m), 0)
    requires |t.outputs| == 1 && |t.outputs[0].publicKey| == k && t.height == 0 && t.hash == IdOf(c, 56 + k)
    ensures HashOk(c, t) && SignBytes(c, t, 0).Ok?
    ensures TxBytes(c, t, true).Ok? && |TxBytes(c, t, true).value| == 88 + k
  {
    VarintDefined(0);
    IdOfDigest(c, Zeros(m));
    IdOfDigest(c, Zeros(56 + k));
    assert t.inputs[1..] == [] && t.outputs[1..] == [];
    assert InputsBytes(t.inputs) == Ok(InputBytes(t.inputs[0]).value + []);
    assert OutputsBytes(c, t.outputs) == OutputBytes(c, t.outputs[0]) + [];
    IdOfDigest(c, TxBytes(c, t, false).value);
    assert |TxBytes(c, t, false).value| == 56 + k;
  }

  lemma SpendValid(c: Crypto, value: real)
    requires ByLength(c)
    requires 0.0 <= value <= 1.0
    ensures ValidTx(c, Spend(c, value), Owned(c))
    ensures TotalIn(Spend(c, value).inputs, Owned(c)) == 1.0 && TotalOut(Spend(c, value).outputs) == value
  {
    var t := Spend(c, value);
    TransferBytes(c, t, 16, 1);
    assert t.inputs[1..] == [] && t.outputs[1..] == [];
    assert Signed(c, t, 0, Owned(c));
  }

  // ----- a batch that has no fee -----

  /** Claims nothing and pays out nothing, so it is valid on every ledger. */
  ghost function Gift(c: Crypto): Transaction {
    Transaction(IdOf(c, 17), [], [Output(0.0, Zeros(1))], 0)
  }

  lemma GiftBytes(c: Crypto)
    requires ByLength(c)
    ensures HashOk(c, Gift(c))
    ensures TxBytes(c, Gift(c), true).Ok? && |TxBytes(c, Gift(c), true).value| == 49
  {
    var t := Gift(c);
    VarintDefined(0);
    IdOfDigest(c, Zeros(17));
    assert t.outputs[1..] == [];
    assert OutputsBytes(c, t.outputs) == OutputBytes(c, t.outputs[0]) + [];
    IdOfDigest(c, TxBytes(c, t, false).value);
    assert |TxBytes(c, t, false).value| == 17;
  }

  lemma GiftValid(c: Crypto, l: Utxos)
    requires ByLength(c)
    ensures ValidTx(c, Gift(c), l)
    ensures TotalOut(Gift(c).outputs) == 0.0 == TotalIn(Gift(c).inputs, l)
  {
    GiftBytes(c);
    assert Gift(c).outputs[1..] == [];
  }

  ghost function GiftKey(c: Crypto): UTXOLite {
    UTXOLite(IdOf(c, 17), 0)
  }

  ghost predicate HasGift(c: Crypto, l: Utxos) {
    GiftKey(c) in l && l[GiftKey(c)].value == 0.0
  }

  /** Spends the output of the gift. There is one for every key length. */
  ghost function TakeGift(c: Crypto, k: nat): Transaction {
    Transaction(IdOf(c, 56 + k), [Input(IdOf(c, 17), 0, [])], [Output(0.0, Zeros(k))], 0)
  }

  lemma TakeGiftValid(c: Crypto, k: nat, l: Utxos)
    requires ByLength(c) && HasGift(c, l)
    ensures ValidTx(c, TakeGift(c, k), l)
    ensures TotalOut(TakeGift(c, k).outputs) == 0.0 == TotalIn(TakeGift(c, k).inputs, l)
  {
    var t := TakeGift(c, k);
    TransferBytes(c, t, 17, k);
    assert t.inputs[1..] == [] && t.outputs[1..] == [];
    assert Signed(c, t, 0, l);
  }

  lemma GiftGiven(c: Crypto, l: Utxos)
    requires ByLength(c)
    ensures HasGift(c, ApplyTx(Gift(c), l)) && HasGift(c, ApplyTx(Coin(c, 0), ApplyTx(Gift(c), l)))
  {
    IdsDiffer(c, 16, 17);
    ApplyTxAt(Gift(c), l, GiftKey(c));
    ApplyTxAt(Coin(c, 0), ApplyTx(Gift(c), l), GiftKey(c));
  }

  lemma GiftTaken(c: Crypto, l: Utxos)
    requires ByLength(c)
    ensures GiftKey(c) !in ApplyTx(Coin(c, 0), ApplyTx(TakeGift(c, 1), l))
  {
    var t := TakeGift(c, 1);
    IdsDiffer(c, 16, 17);
    IdsDiffer(c, 17, 57);
    assert Outpoint(t.inputs[0]) == GiftKey(c);
    ApplyTxAt(t, l, GiftKey(c));
    ApplyTxAt(Coin(c, 0), ApplyTx(t, l), GiftKey(c));
  }

  ghost function GiftBlock(c: Crypto): Block {
    OneTx(c, GENESIS_HASH, Gift(c), 49, 0)
  }

  ghost function TakenBlock(c: Crypto): Block {
    OneTx(c, GiftBlock(c).hash, TakeGift(c, 1), 89, 0)
  }

  /** The gift is made; a first transaction that takes it is put into the pool, but a block with a second one that
      does arrives; and the gift, which is still valid, is put into the pool. */
  ghost function GiftSteps(c: Crypto): seq<Step> {
    [Receive(GiftBlock(c)), AddTx(TakeGift(c, 0)), Receive(TakenBlock(c)), AddTx(Gift(c))]
  }

  lemma GiftBlockOn(c: Crypto, cfg: Config)
    requires ByLength(c) && Easy(cfg)
    ensures OneTxOn(c, cfg, INITIAL, GiftBlock(c), Gift(c))
  {
    InitialInv(c, cfg);
    GiftBytes(c);
    GiftValid(c, map[]);
    NotGenesis(c, 106);
    OneTxHeader(c, cfg, GENESIS_HASH, Gift(c), 49, 0);
    CoinVerdict(c, cfg, 0);
  }

  /** The first block is taken, and the ledger has the gift. */
  ghost predicate GiftMade(c: Crypto, cfg: Config, s: NodeState) {
    && Inv(c, cfg, s) && s.tail == GiftBlock(c).hash && s.tail in s.chain
    && s.chain.Keys == {GENESIS_HASH, GiftBlock(c).hash} && HasGift(c, s.chain[s.tail].ledger)
  }

  lemma AfterGift(c: Crypto, cfg: Config)
    requires ByLength(c) && Easy(cfg)
    ensures var s := Next(c, cfg, INITIAL, Receive(GiftBlock(c)));
      GiftMade(c, cfg, s) && s.pool == map[]
  {
    GiftBlockOn(c, cfg);
    OneTxArrives(c, cfg, INITIAL, GiftBlock(c), Gift(c));
    GiftGiven(c, map[]);
  }

  lemma TakenBlockOn(c: Crypto, cfg: Config, s: NodeState)
    requires ByLength(c) && Easy(cfg) && GiftMade(c, cfg, s)
    ensures OneTxOn(c, cfg, s, TakenBlock(c), TakeGift(c, 1))
  {
    NotGenesis(c, 106);
    NotGenesis(c, 177);
    IdsDiffer(c, 106, 177);
    TransferBytes(c, TakeGift(c, 1), 17, 1);
    TakeGiftValid(c, 1, s.chain[s.tail].ledger);
    OneTxHeader(c, cfg, GiftBlock(c).hash, TakeGift(c, 1), 89, 0);
    CoinVerdict(c, cfg, 0);
  }

  lemma AfterTaken(c: Crypto, cfg: Config, s: NodeState)
    requires ByLength(c) && Easy(cfg) && GiftMade(c, cfg, s)
    ensures var s' := Next(c, cfg, s, Receive(TakenBlock(c)));
      && s'.tail in s'.chain && GiftKey(c) !in s'.chain[s'.tail].ledger
      && s'.pool == s.pool - {IdOf(c, 57)}
  {
    TakenBlockOn(c, cfg, s);
    OneTxArrives(c, cfg, s, TakenBlock(c), TakeGift(c, 1));
    GiftTaken(c, s.chain[s.tail].ledger);
  }

  lemma FirstPooled(c: Crypto, cfg: Config)
    requires ByLength(c) && Easy(cfg)
    ensures var s1 := Next(c, cfg, INITIAL, Receive(GiftBlock(c)));
      var s2 := Next(c, cfg, s1, AddTx(TakeGift(c, 0)));
      GiftMade(c, cfg, s2) && s2.pool == map[IdOf(c, 56) := TakeGift(c, 0)]
  {
    var s1 := Next(c, cfg, INITIAL, Receive(GiftBlock(c)));
    AfterGift(c, cfg);
    NextKeepsInv(c, cfg, s1, AddTx(TakeGift(c, 0)));
  }

  ghost function AfterOne(c: Crypto, cfg: Config): (s: NodeState)
    ensures s.tail in s.chain
  {
    Next(c, cfg, INITIAL, Receive(GiftBlock(c)))
  }

  ghost function AfterTwo(c: Crypto, cfg: Config): (s: NodeState)
    ensures s.tail in s.chain
  {
    Next(c, cfg, AfterOne(c, cfg), AddTx(TakeGift(c, 0)))
  }

  ghost function AfterThree(c: Crypto, cfg: Config): (s: NodeState)
    ensures s.tail in s.chain
  {
    Next(c, cfg, AfterTwo(c, cfg), Receive(TakenBlock(c)))
  }

  /** The gift is gone from the ledger, and the first transaction that takes it is still in the pool. */
  lemma ThirdState(c: Crypto, cfg: Config)
    requires ByLength(c) && Easy(cfg)
    ensures var s := AfterThree(c, cfg);
      GiftKey(c) !in s.chain[s.tail].ledger && s.pool == map[IdOf(c, 56) := TakeGift(c, 0)]
  {
    FirstPooled(c, cfg);
    AfterTaken(c, cfg, AfterTwo(c, cfg));
    IdsDiffer(c, 56, 57);
  }

  lemma GiftState(c: Crypto, cfg: Config)
    requires ByLength(c) && Easy(cfg)
    ensures var s := Reached(c, cfg, GiftSteps(c));
      && s.tail in s.chain && GiftKey(c) !in s.chain[s.tail].ledger
      && s.pool == map[IdOf(c, 56) := TakeGift(c, 0), IdOf(c, 17) := Gift(c)]
  {
    ThirdState(c, cfg);
    IdsDiffer(c, 17, 56);
    RunTwo(c, cfg, INITIAL, Receive(GiftBlock(c)), AddTx(TakeGift(c, 0)), [Receive(TakenBlock(c)), AddTx(Gift(c))]);
    RunTwo(c, cfg, AfterTwo(c, cfg), Receive(TakenBlock(c)), AddTx(Gift(c)), []);
    assert GiftSteps(c) ==
      [Receive(GiftBlock(c)), AddTx(TakeGift(c, 0))] + [Receive(TakenBlock(c)), AddTx(Gift(c))];
    assert [Receive(TakenBlock(c)), AddTx(Gift(c))] + [] == [Receive(TakenBlock(c)), AddTx(Gift(c))];
  }

  lemma GiftServed(c: Crypto, cfg: Config)
    requires ByLength(c) && Easy(cfg)
    ensures Server.Served(c, cfg, INITIAL, GiftSteps(c))
  {
    var rest := [AddTx(TakeGift(c, 0)), Receive(TakenBlock(c)), AddTx(Gift(c))];
    RestServed(c, cfg);
    ServedStep(c, cfg, INITIAL, Receive(GiftBlock(c)), rest);
    assert [Receive(GiftBlock(c))] + rest == GiftSteps(c);
  }

  lemma FirstValid(c: Crypto, cfg: Config)
    requires ByLength(c) && Easy(cfg)
    ensures var s := AfterOne(c, cfg); ValidTx(c, TakeGift(c, 0), s.chain[s.tail].ledger)
  {
    AfterGift(c, cfg);
    TakeGiftValid(c, 0, AfterOne(c, cfg).chain[AfterOne(c, cfg).tail].ledger);
  }

  lemma RestServed(c: Crypto, cfg: Config)
    requires ByLength(c) && Easy(cfg)
    ensures Server.Served(
      c, cfg, AfterOne(c, cfg), [AddTx(TakeGift(c, 0)), Receive(TakenBlock(c)), AddTx(Gift(c))])
  {
    var rest := [Receive(TakenBlock(c)), AddTx(Gift(c))];
    LaterServed(c, cfg);
    FirstValid(c, cfg);
    ServedStep(c, cfg, AfterOne(c, cfg), AddTx(TakeGift(c, 0)), rest);
    assert [AddTx(TakeGift(c, 0))] + rest == [AddTx(TakeGift(c, 0)), Receive(TakenBlock(c)), AddTx(Gift(c))];
  }

  lemma LaterServed(c: Crypto, cfg: Config)
    requires ByLength(c) && Easy(cfg)
    ensures Server.Served(c, cfg, AfterTwo(c, cfg), [Receive(TakenBlock(c)), AddTx(Gift(c))])
  {
    var s3 := AfterThree(c, cfg);
    GiftValid(c, s3.chain[s3.tail].ledger);
    ServedStep(c, cfg, s3, AddTx(Gift(c)), []);
    ServedStep(c, cfg, AfterTwo(c, cfg), Receive(TakenBlock(c)), [AddTx(Gift(c))]);
    assert [AddTx(Gift(c))] + [] == [AddTx(Gift(c))];
    assert [Receive(TakenBlock(c))] + [AddTx(Gift(c))] == [Receive(TakenBlock(c)), AddTx(Gift(c))];
  }

  lemma ServedStep(c: Crypto, cfg: Config, s: NodeState, a: Step, rest: seq<Step>)
    requires s.tail in s.chain
    ensures Server.Served(c, cfg, s, [a] + rest) <==>
      (a.AddTx? ==> ValidTx(c, a.tx, s.chain[s.tail].ledger)) && Server.Served(c, cfg, Next(c, cfg, s, a), rest)
  {
    assert ([a] + rest)[1..] == rest;
  }

  lemma TwoSucceed(c: Crypto, t: Transaction, u: Transaction, l: Utxos)
    requires ValidTx(c, t, l) && ValidTx(c, u, ApplyTx(t, l))
    ensures Replay(c, [t, u], l).failed == []
  {
    assert [t, u][1..] == [u] && [u][1..] == [];
    assert Replay(c, [u], ApplyTx(t, l)).failed == [];
  }

  lemma GiftBatch(c: Crypto, l: Utxos)
    requires ByLength(c) && GiftKey(c) !in l
    ensures Replay(c, [Gift(c), TakeGift(c, 0)], l).failed == [] && Fee([Gift(c), TakeGift(c, 0)], l).Err?
  {
    var txs := [Gift(c), TakeGift(c, 0)];
    GiftValid(c, l);
    GiftGiven(c, l);
    TakeGiftValid(c, 0, ApplyTx(Gift(c), l));
    TwoSucceed(c, Gift(c), TakeGift(c, 0), l);
    FeeIsDefined(txs, l);
    assert Outpoint(txs[1].inputs[0]) !in l;
  }

  /** "Handle transaction success but fail calcFee" does happen, at any confirmation depth and without a fork: after
      steps of which each puts only a transaction into the pool that is valid on the ledger of the tail, the pool holds
      two that succeed in one of its orders and have no fee on that ledger. Whatever else the attempt to mine them is
      given, it ends the process. */
  lemma FatalFeeBranchHappens(c: Crypto, cfg: Config, height: int, pk: seq<byte>, interruptAt: Option<int>)
    requires ByLength(c) && Easy(cfg)
    ensures Server.Served(c, cfg, INITIAL, GiftSteps(c))
    ensures var s := Reached(c, cfg, GiftSteps(c));
      var txs := [Gift(c), TakeGift(c, 0)];
      && s.tail in s.chain && Mining.Enumerates(txs, s.pool)
      && Replay(c, txs, s.chain[s.tail].ledger).failed == []
      && Mining.MakeVerdict(c, cfg, s.tail, txs, height, pk, s.chain[s.tail].ledger, interruptAt) == Some(Fatal)
  {
    var s := Reached(c, cfg, GiftSteps(c));
    GiftServed(c, cfg);
    GiftState(c, cfg);
    GiftBatch(c, s.chain[s.tail].ledger);
    GiftPool(c, s.pool);
  }

  lemma GiftPool(c: Crypto, pool: map<Hash, Transaction>)
    requires ByLength(c) && pool == map[IdOf(c, 56) := TakeGift(c, 0), IdOf(c, 17) := Gift(c)]
    ensures Mining.Enumerates([Gift(c), TakeGift(c, 0)], pool)
  {
    IdsDiffer(c, 17, 56);
  }

  // ----- a coinbase with the id of a transaction -----

  /** The bytes of a transfer's input and output. */
  ghost function SpentBytes(c: Crypto): seq<byte> {
    var t := Spend(c, 1.0);
    if InputsBytes(t.inputs).Ok? then InputsBytes(t.inputs).value + OutputsBytes(c, t.outputs) else []
  }

  /** A coinbase of one coin whose key is what follows the first eight of those bytes. */
  ghost function Mimic(c: Crypto): Transaction {
    Transaction(IdOf(c, 57), [], [Output(1.0, if |SpentBytes(c)| < 8 then [] else SpentBytes(c)[8..])], 0)
  }

  /** The first eight bytes of the digest that the transfer spends from are the bits of one coin. */
  ghost predicate ReadsAsCoin(c: Crypto) {
    c.floatBits(1.0) == c.sha256(Zeros(16))[..8]
  }

  lemma SomeDigestReadsAsCoin()
    ensures var c := Toy(_ => [16] + seq(7, _ => 0)); ByLength(c) && ReadsAsCoin(c)
  {
    var bits: real -> Word64 := _ => [16] + seq(7, _ => 0);
    ToyByLength(bits);
    assert Toy(bits).sha256(Zeros(16))[..8] == [16] + seq(7, _ => 0);
  }

  lemma MimicReads(c: Crypto)
    requires ByLength(c) && ReadsAsCoin(c)
    ensures ReadsAs(c, Mimic(c), Spend(c, 1.0)) && |SpentBytes(c)| == 49
  {
    var t := Spend(c, 1.0);
    VarintDefined(0);
    HexRoundTrip(c.sha256(Zeros(16)));
    assert t.inputs[1..] == [] && t.outputs[1..] == [];
    assert InputsBytes(t.inputs) == Ok(InputBytes(t.inputs[0]).value + []);
    assert OutputsBytes(c, t.outputs) == OutputBytes(c, t.outputs[0]) + [];
    var bytes := SpentBytes(c);
    assert bytes[..8] == c.sha256(Zeros(16))[..8];
    assert bytes == bytes[..8] + bytes[8..];
  }

  ghost function SpentBlock(c: Crypto): Block {
    OneTx(c, First(c).hash, Spend(c, 1.0), 89, 1)
  }

  ghost function MimicBlock(c: Crypto): Block {
    Block(IdOf(c, 129), SpentBlock(c).hash, [], Mimic(c), 0)
  }

  lemma MimicHeader(c: Crypto, cfg: Config)
    requires ByLength(c) && Easy(cfg) && ReadsAsCoin(c)
    ensures HeaderOk(c, cfg, MimicBlock(c))
  {
    var b := MimicBlock(c);
    VarintDefined(0);
    NotGenesis(c, 178);
    NotGenesis(c, 57);
    BaseBytes(c, b.prevHash);
    BaseBytes(c, b.coinbase.hash);
    MimicReads(c);
    assert b.coinbase.outputs[1..] == [];
    assert OutputsBytes(c, b.coinbase.outputs) == OutputBytes(c, b.coinbase.outputs[0]) + [];
    assert TxBytes(c, b.coinbase, true).Ok? && |TxBytes(c, b.coinbase, true).value| == 89;
    HeaderByLength(c, cfg, b, 129);
  }

  lemma SpentBlockOn(c: Crypto, cfg: Config)
    requires ByLength(c) && Easy(cfg)
    ensures OneTxOn(c, cfg, Reached(c, cfg, [Receive(First(c))]), SpentBlock(c), Spend(c, 1.0))
  {
    AfterFirst(c, cfg);
    SecondHash(c);
    NotGenesis(c, 178);
    NotGenesis(c, 57);
    IdsDiffer(c, 57, 178);
    TransferBytes(c, Spend(c, 1.0), 16, 1);
    SpendValid(c, 1.0);
    OneTxHeader(c, cfg, First(c).hash, Spend(c, 1.0), 89, 1);
    CoinVerdict(c, cfg, 1);
  }

  lemma AfterSpent(c: Crypto, cfg: Config)
    requires ByLength(c) && Easy(cfg)
    ensures var s := Reached(c, cfg, [Receive(First(c)), Receive(SpentBlock(c))]);
      && s.tail == SpentBlock(c).hash && s.tail in s.chain
      && s.chain.Keys == {GENESIS_HASH, First(c).hash, SpentBlock(c).hash}
      && History(Branch(s, s.tail)) == [Coin(c, 0), Spend(c, 1.0), Coin(c, 1)]
  {
    var s := Reached(c, cfg, [Receive(First(c))]);
    AfterFirst(c, cfg);
    SpentBlockOn(c, cfg);
    OneTxArrives(c, cfg, s, SpentBlock(c), Spend(c, 1.0));
    OneTxHistory(c, cfg, s, SpentBlock(c), Spend(c, 1.0));
    ReachedTwo(c, cfg, Receive(First(c)), Receive(SpentBlock(c)));
    assert [Coin(c, 0)] + [Spend(c, 1.0), Coin(c, 1)] == [Coin(c, 0), Spend(c, 1.0), Coin(c, 1)];
  }

  lemma MimicHash(c: Crypto)
    requires ByLength(c)
    ensures MimicBlock(c).hash !in {GENESIS_HASH, First(c).hash, SpentBlock(c).hash}
  {
    NotGenesis(c, 57);
    NotGenesis(c, 129);
    SecondHash(c);
    IdsDiffer(c, 57, 129);
    IdsDiffer(c, 129, 178);
  }

  lemma MimicBlockOn(c: Crypto, cfg: Config)
    requires ByLength(c) && Easy(cfg) && ReadsAsCoin(c)
    ensures EmptyBlockOn(c, cfg, Reached(c, cfg, [Receive(First(c)), Receive(SpentBlock(c))]), MimicBlock(c))
  {
    AfterSpent(c, cfg);
    MimicHeader(c, cfg);
    MimicHash(c);
  }

  lemma MimicSources(c: Crypto)
    requires ByLength(c)
    ensures SourcesDistinct([Coin(c, 0), Spend(c, 1.0), Coin(c, 1)] + [Mimic(c)])
  {
    IdsDiffer(c, 16, 17);
    IdsDiffer(c, 16, 57);
    IdsDiffer(c, 17, 57);
  }

  /** Three accepted blocks on whose branch a coinbase and a transfer have one id, while the transactions that claim
      nothing have ids of their own. */
  lemma CoinbaseTakesIdHappens(c: Crypto, cfg: Config)
    requires ByLength(c) && Easy(cfg) && ReadsAsCoin(c)
    ensures var s := Reached(c, cfg, [Receive(First(c)), Receive(SpentBlock(c)), Receive(MimicBlock(c))]);
      && s.tail == MimicBlock(c).hash && s.tail in s.chain
      && var ts := History(Branch(s, s.tail));
         SourcesDistinct(ts) && !DistinctIds(ts) && !SameIdSameShape(ts)
  {
    var s := Reached(c, cfg, [Receive(First(c)), Receive(SpentBlock(c))]);
    AfterSpent(c, cfg);
    MimicBlockOn(c, cfg);
    MimicReads(c);
    MimicSources(c);
    assert Spend(c, 1.0) == History(Branch(s, s.tail))[1];
    CoinbaseTakesId(c, cfg, s, MimicBlock(c), Spend(c, 1.0));
    EmptyBlockArrives(c, cfg, s, MimicBlock(c));
    ReachedThree(c, cfg, Receive(First(c)), Receive(SpentBlock(c)), Receive(MimicBlock(c)));
  }

  // ----- fees -----

  /** "Total input should be <= reward + tx fee" is not the rule: with half a coin paid as fee, a rightly hashed
      coinbase is accepted exactly up to half a coin below the reward. */
  lemma FeesCannotBeClaimed(c: Crypto, cfg: Config, b: Block)
    requires ByLength(c)
    requires Easy(cfg) && b.prevHash == First(c).hash && b.txs == [Spend(c, 0.5)]
    requires HeaderOk(c, cfg, b) && b.hash !in {GENESIS_HASH, First(c).hash}
    requires HashOk(c, b.coinbase) && b.coinbase.inputs == [] && |b.coinbase.outputs| == 1
    ensures var s := Reached(c, cfg, [Receive(First(c))]);
      && Fee(b.txs, s.chain[s.tail].ledger) == Ok(-0.5)
      && Check(c, cfg, s, b) ==
         if b.coinbase.outputs[0].value <= cfg.reward - 0.5 then None else Some(CoinbaseTooLarge)
  {
    AfterFirst(c, cfg);
    SpendValid(c, 0.5);
    Agreement.SingleTxBatch(c, Spend(c, 0.5), Owned(c));
  }

  // ----- one hash, two blocks -----

  /** Spends the one coin in full and has no change left, which makes a last output worth nothing. */
  ghost function SpendAll(c: Crypto): Transaction {
    Transaction(IdOf(c, 66), [Input(IdOf(c, 16), 0, [])], [Output(1.0, Zeros(2)), Output(0.0, [])], 0)
  }

  ghost function SpendAllBlock(c: Crypto): Block {
    OneTx(c, First(c).hash, SpendAll(c), 98, 0)
  }

  lemma SpendAllBytes(c: Crypto)
    requires ByLength(c)
    ensures HashOk(c, SpendAll(c)) && SignBytes(c, SpendAll(c), 0).Ok?
    ensures TxBytes(c, SpendAll(c), true).Ok? && |TxBytes(c, SpendAll(c), true).value| == 98
  {
    var t := SpendAll(c);
    VarintDefined(0);
    IdOfDigest(c, Zeros(16));
    IdOfDigest(c, Zeros(66));
    assert t.inputs[1..] == [] && t.outputs[1..] == [t.outputs[1]] && t.outputs[1..][1..] == [];
    assert InputsBytes(t.inputs) == Ok(InputBytes(t.inputs[0]).value + []);
    assert OutputsBytes(c, t.outputs[1..]) == OutputBytes(c, t.outputs[1]) + [];
    assert |OutputsBytes(c, t.outputs)| == 18;
    IdOfDigest(c, TxBytes(c, t, false).value);
    assert |TxBytes(c, t, false).value| == 66;
  }

  lemma SpendAllValid(c: Crypto)
    requires ByLength(c)
    ensures ValidTx(c, SpendAll(c), Owned(c))
    ensures TotalIn(SpendAll(c).inputs, Owned(c)) == 1.0 && TotalOut(SpendAll(c).outputs) == 1.0
  {
    var t := SpendAll(c);
    SpendAllBytes(c);
    assert t.inputs[1..] == [] && t.outputs[1..] == [t.outputs[1]] && t.outputs[1..][1..] == [];
    assert TotalOut([t.outputs[1]]) == 0.0;
    assert Signed(c, t, 0, Owned(c));
  }

  lemma SpendAllHeader(c: Crypto, cfg: Config)
    requires ByLength(c) && Easy(cfg)
    ensures HeaderOk(c, cfg, SpendAllBlock(c)) && SpendAllBlock(c).hash == IdOf(c, 186)
  {
    SpendAllBytes(c);
    SecondHash(c);
    NotGenesis(c, 57);
    OneTxHeader(c, cfg, First(c).hash, SpendAll(c), 98, 0);
  }

  lemma SpendAllBody(c: Crypto, cfg: Config)
    requires ByLength(c) && Easy(cfg)
    ensures BodyVerdict(c, cfg, SpendAllBlock(c), Owned(c)) == None
    ensures Fee(SpendAllBlock(c).txs, Owned(c)) == Ok(0.0)
  {
    SpendAllValid(c);
    Agreement.SingleTxBatch(c, SpendAll(c), Owned(c));
    CoinBytes(c, 0);
  }

  lemma SpendAllAccepted(c: Crypto, cfg: Config)
    requires ByLength(c) && Easy(cfg)
    ensures Agreement.Mergeable(c, cfg, Reached(c, cfg, [Receive(First(c))]), SpendAllBlock(c))
  {
    AfterFirst(c, cfg);
    SpendAllHeader(c, cfg);
    SpendAllBody(c, cfg);
    SecondHash(c);
    NotGenesis(c, 186);
    IdsDiffer(c, 57, 186);
    IdsDiffer(c, 16, 66);
  }

  /** Two new nodes that take the first block and then the one or the other hold one hash with two ledgers. */
  lemma MergedBlockHappens(c: Crypto, cfg: Config)
    requires ByLength(c) && Easy(cfg)
    ensures var b := SpendAllBlock(c);
      var s := Reached(c, cfg, [Receive(First(c)), Receive(b)]);
      var t := Reached(c, cfg, [Receive(First(c)), Receive(Agreement.MergedBlock(c, b))]);
      b.hash in s.chain && b.hash in t.chain && s.chain[b.hash].ledger != t.chain[b.hash].ledger
  {
    var b, s := SpendAllBlock(c), Reached(c, cfg, [Receive(First(c))]);
    AfterFirst(c, cfg);
    SpendAllAccepted(c, cfg);
    SpendAllBody(c, cfg);
    Agreement.MergedBlockAccepted(c, cfg, s, b);
    Agreement.MergedBlockSplitsNodes(c, cfg, s, b);
    ReachedTwo(c, cfg, Receive(First(c)), Receive(b));
    ReachedTwo(c, cfg, Receive(First(c)), Receive(Agreement.MergedBlock(c, b)));
  }

  // ----- a buried block that leaves the longest chain -----

  ghost function LengthAt(prev: Hash, ks: seq<nat>, i: nat): nat
    requires i < |ks|
  {
    if i == 0 then BlockLength(prev, ks[0]) else 88 + ks[i]
  }

  /** Block `i` of a chain on `prev`, with keys of the given lengths. */
  ghost function ChainAt(c: Crypto, prev: Hash, ks: seq<nat>, i: nat): Block
    requires i < |ks|
  {
    var parent := if i == 0 then prev else IdOf(c, LengthAt(prev, ks, i - 1));
    Block(IdOf(c, LengthAt(prev, ks, i)), parent, [], Coin(c, ks[i]), 0)
  }

  /** Blocks one on top of the other. */
  ghost function ChainOn(c: Crypto, prev: Hash, ks: seq<nat>): (bs: seq<Block>)
    ensures |bs| == |ks|
  {
    seq(|ks|, i requires 0 <= i < |ks| => ChainAt(c, prev, ks, i))
  }

  lemma LengthAtRest(h: Hash, prev: Hash, ks: seq<nat>, i: nat)
    requires h != GENESIS_HASH && i + 1 < |ks|
    ensures LengthAt(h, ks[1..], i) == LengthAt(prev, ks, i + 1)
  {
  }

  lemma ChainAtRest(c: Crypto, h: Hash, prev: Hash, ks: seq<nat>, i: nat)
    requires h != GENESIS_HASH && i + 1 < |ks| && h == IdOf(c, BlockLength(prev, ks[0]))
    ensures ChainAt(c, h, ks[1..], i) == ChainAt(c, prev, ks, i + 1)
  {
    LengthAtRest(h, prev, ks, i);
    if i > 0 {
      LengthAtRest(h, prev, ks, i - 1);
    }
  }

  lemma ChainRest(c: Crypto, h: Hash, prev: Hash, ks: seq<nat>)
    requires ks != [] && h != GENESIS_HASH && h == IdOf(c, BlockLength(prev, ks[0]))
    ensures ChainOn(c, prev, ks)[1..] == ChainOn(c, h, ks[1..])
  {
    forall i | 0 <= i < |ks| - 1
      ensures ChainAt(c, h, ks[1..], i) == ChainAt(c, prev, ks, i + 1)
    {
      ChainAtRest(c, h, prev, ks, i);
    }
  }

  ghost predicate Climbing(ks: seq<nat>) {
    forall i, j :: 0 <= i < j < |ks| ==> ks[i] < ks[j] < 168
  }

  lemma FirstApart(c: Crypto, prev: Hash, ks: seq<nat>)
    requires ByLength(c) && Climbing(ks) && ks != [] && ks[0] < 168
    ensures forall i :: 0 < i < |ks| ==> ChainOn(c, prev, ks)[i].hash != IdOf(c, BlockLength(prev, ks[0]))
  {
    forall i | 0 < i < |ks|
      ensures ChainOn(c, prev, ks)[i].hash != IdOf(c, BlockLength(prev, ks[0]))
    {
      IdsDiffer(c, LengthAt(prev, ks, i), BlockLength(prev, ks[0]));
    }
  }

  lemma {:induction false} ChainExtends(c: Crypto, cfg: Config, prev: Hash, l: Utxos, ks: seq<nat>)
    requires ByLength(c) && Easy(cfg) && Base(c, prev) && Climbing(ks) && (ks != [] ==> ks[0] < 168)
    ensures ValidExtension(c, cfg, INITIAL, prev, l, ChainOn(c, prev, ks))
    decreases |ks|
  {
    if ks == [] {
    } else {
      var b := Mined(c, prev, ks[0]);
      assert ChainOn(c, prev, ks)[0] == b;
      MinedHeader(c, cfg, prev, ks[0]);
      MinedBody(c, cfg, prev, ks[0], l);
      NotGenesis(c, BlockLength(prev, ks[0]));
      ChainRest(c, b.hash, prev, ks);
      ChainExtends(c, cfg, b.hash, BlockLedger(c, b, l), ks[1..]);
      FirstApart(c, prev, ks);
    }
  }

  /** `n` lengths in a row. */
  function From(k: nat, n: nat): (ks: seq<nat>)
    ensures |ks| == n && forall i :: 0 <= i < n ==> ks[i] == k + i
  {
    seq(n, i => k + i)
  }

  /** The branch that leads, and the other with one block more. */
  ghost function Leader(c: Crypto, n: nat): (bs: seq<Block>)
    ensures |bs| == n
  {
    ChainOn(c, GENESIS_HASH, From(0, n))
  }

  ghost function Rival(c: Crypto, n: nat): (bs: seq<Block>)
    ensures |bs| == n + 1
  {
    ChainOn(c, GENESIS_HASH, From(n + 40, n + 1))
  }

  lemma ChainsApart(c: Crypto, n: nat)
    requires ByLength(c)
    requires 0 < n < 60
    ensures Apart(Leader(c, n), Rival(c, n))
  {
    var ks, ms := From(0, n), From(n + 40, n + 1);
    forall i, j | 0 <= i < n && 0 <= j < n + 1
      ensures Leader(c, n)[i].hash != Rival(c, n)[j].hash
    {
      IdsDiffer(c, LengthAt(GENESIS_HASH, ks, i), LengthAt(GENESIS_HASH, ms, j));
    }
  }

  /** Both branches in turn up to length `n`. */
  ghost function RaceSteps(c: Crypto, n: nat): seq<Step> {
    Alternate(Leader(c, n), Rival(c, n))
  }

  lemma BothExtendGenesis(c: Crypto, cfg: Config, n: nat)
    requires ByLength(c) && Easy(cfg) && 1 <= cfg.confirmation && 0 < n < 60
    ensures Branches(c, cfg, INITIAL, INITIAL.tail, 0, Leader(c, n), Rival(c, n))
  {
    InitialInv(c, cfg);
    LeaderExtends(c, cfg, n);
    RivalExtends(c, cfg, n);
    ChainsApart(c, n);
    SideBySide(c, cfg, INITIAL, Leader(c, n), Rival(c, n));
  }

  lemma LeaderExtends(c: Crypto, cfg: Config, n: nat)
    requires ByLength(c) && Easy(cfg) && n < 60
    ensures ValidExtension(c, cfg, INITIAL, GENESIS_HASH, map[], Leader(c, n))
  {
    ChainExtends(c, cfg, GENESIS_HASH, map[], From(0, n));
  }

  lemma RivalExtends(c: Crypto, cfg: Config, n: nat)
    requires ByLength(c) && Easy(cfg) && n < 60
    ensures ValidExtension(c, cfg, INITIAL, GENESIS_HASH, map[], Rival(c, n))
  {
    ChainExtends(c, cfg, GENESIS_HASH, map[], From(n + 40, n + 1));
  }

  /** For every confirmation depth from 1 to 57 a new node reaches a state in which a block deeper than that is
      on the longest chain, and one more block takes the longest chain away from it. */
  lemma BuriedBlockLeavesHappens(c: Crypto, cfg: Config)
    requires ByLength(c) && Easy(cfg) && 1 <= cfg.confirmation <= 57
    ensures var n := cfg.confirmation + 2;
      Buried(Reached(c, cfg, RaceSteps(c, n)), Leader(c, n)[0].hash, cfg.confirmation + 1)
    ensures var n := cfg.confirmation + 2;
      Aside(Reached(c, cfg, RaceSteps(c, n) + [Receive(Rival(c, n)[n])]), Leader(c, n)[0].hash)
  {
    var n := cfg.confirmation + 2;
    BothExtendGenesis(c, cfg, n);
    BuriedBlockLeaves(c, cfg, INITIAL, Leader(c, n), Rival(c, n));
    RunConcat(c, cfg, INITIAL, RaceSteps(c, n), [Receive(Rival(c, n)[n])]);
  }
}

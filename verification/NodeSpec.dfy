/** A node as a state machine over values: what each mutex-protected step does, and what every run keeps. */
module NodeSpec {
  import opened LedgerSpec
  import opened Types
  import Difficulty

  datatype Entry = Entry(block: Block, height: int, ledger: Utxos)

  /** `log` lists the hashes of the chain in order of acceptance. */
  datatype NodeState = NodeState(chain: map<Hash, Entry>, tail: Hash, pool: map<Hash, Transaction>, log: seq<Hash>)

  const INITIAL := NodeState(map[GENESIS_HASH := Entry(GENESIS, 0, map[])], GENESIS_HASH, map[], [GENESIS_HASH])

  /** `tailChange` and `outOfSync` are the two flags returned next to the error. */
  datatype Reply = Reply(tailChange: bool, outOfSync: bool, err: Option<Error>)

  // ----- handling a block -----

  /** The block meets the difficulty and carries its own digest. */
  ghost predicate HeaderOk(c: Crypto, cfg: Config, b: Block) {
    Difficulty.Match(c, b, cfg.difficulty) == Ok((true, b.hash))
  }

  ghost function HeaderVerdict(c: Crypto, cfg: Config, b: Block): (err: Option<Error>)
    ensures err == None <==> HeaderOk(c, cfg, b)
  {
    var m := Difficulty.Match(c, b, cfg.difficulty);
    if m.Err? then Some(m.error)
    else if !m.value.0 then Some(DifficultyMismatch)
    else if m.value.1 != b.hash then Some(BadBlockHash)
    else None
  }

  /** What the transactions and the coinbase must satisfy on the parent's ledger. */
  ghost function BodyVerdict(c: Crypto, cfg: Config, b: Block, l: Utxos): Option<Error> {
    var fee := Fee(b.txs, l);
    if fee.Err? then Some(fee.error)
    else if CoinbaseVerdict(c, b.coinbase, fee.value + cfg.reward).Some? then
      CoinbaseVerdict(c, b.coinbase, fee.value + cfg.reward)
    else if Replay(c, b.txs, l).failed != [] then Some(BatchInvalid)
    else None
  }

  /** The ledger after a block: its transactions, then its coinbase. */
  ghost function BlockLedger(c: Crypto, b: Block, l: Utxos): Utxos {
    ApplyTx(b.coinbase, Replay(c, b.txs, l).ledger)
  }

  /** The parent must be there, and not too deep below the tail. */
  ghost function PlaceVerdict(cfg: Config, s: NodeState, b: Block): (err: Option<Error>)
    requires s.tail in s.chain
    ensures err == None ==> b.prevHash in s.chain
  {
    if b.prevHash !in s.chain then Some(ParentNotFound)
    else if s.chain[s.tail].height - s.chain[b.prevHash].height > cfg.confirmation then Some(ParentTooDeep)
    else None
  }

  ghost function Check(c: Crypto, cfg: Config, s: NodeState, b: Block): Option<Error>
    requires s.tail in s.chain
  {
    if b.hash in s.chain then Some(BlockExists)
    else if HeaderVerdict(c, cfg, b).Some? then HeaderVerdict(c, cfg, b)
    else if PlaceVerdict(cfg, s, b).Some? then PlaceVerdict(cfg, s, b)
    else BodyVerdict(c, cfg, b, s.chain[b.prevHash].ledger)
  }

  function WithoutTxs(pool: map<Hash, Transaction>, txs: seq<Transaction>): map<Hash, Transaction> {
    pool - (set i | 0 <= i < |txs| :: txs[i].hash)
  }

  /** A block with ledger `l` on top of its parent; the tail moves only to a strictly higher block. */
  ghost function Grown(s: NodeState, b: Block, l: Utxos): NodeState
    requires s.tail in s.chain && b.prevHash in s.chain
  {
    var e := Entry(b, s.chain[b.prevHash].height + 1, l);
    NodeState(
      s.chain[b.hash := e],
      if e.height > s.chain[s.tail].height then b.hash else s.tail,
      WithoutTxs(s.pool, b.txs),
      s.log + [b.hash])
  }

  ghost function Attach(c: Crypto, s: NodeState, b: Block): NodeState
    requires s.tail in s.chain && b.prevHash in s.chain
  {
    Grown(s, b, BlockLedger(c, b, s.chain[b.prevHash].ledger))
  }

  ghost function Handle(c: Crypto, cfg: Config, s: NodeState, b: Block): (NodeState, Reply)
    requires s.tail in s.chain
  {
    var err := Check(c, cfg, s, b);
    if err.Some? then (s, Reply(false, err.value.ParentNotFound?, err))
    else (Attach(c, s, b), Reply(s.chain[b.prevHash].height + 1 > s.chain[s.tail].height, false, None))
  }

  /** What becomes of an accepted block. */
  lemma Taken(c: Crypto, cfg: Config, s: NodeState, b: Block)
    requires s.tail in s.chain && Check(c, cfg, s, b) == None
    ensures b.prevHash in s.chain && BodyVerdict(c, cfg, b, s.chain[b.prevHash].ledger) == None
    ensures var higher := s.chain[b.prevHash].height + 1 > s.chain[s.tail].height;
      Handle(c, cfg, s, b) == (Attach(c, s, b), Reply(higher, false, None))
  {
  }

  // ----- steps and runs -----

  datatype Step = Receive(block: Block) | AddTx(tx: Transaction) | RemoveTx(tx: Transaction)

  ghost function Next(c: Crypto, cfg: Config, s: NodeState, step: Step): (s': NodeState)
    requires s.tail in s.chain
    ensures s'.tail in s'.chain
  {
    match step
    case Receive(b) => Handle(c, cfg, s, b).0
    case AddTx(tx) => if tx.hash in s.pool then s else s.(pool := s.pool[tx.hash := tx])
    case RemoveTx(tx) => s.(pool := s.pool - {tx.hash})
  }

  ghost function Run(c: Crypto, cfg: Config, s: NodeState, steps: seq<Step>): (s': NodeState)
    requires s.tail in s.chain
    ensures s'.tail in s'.chain
    decreases |steps|
  {
    if steps == [] then s else Run(c, cfg, Next(c, cfg, s, steps[0]), steps[1..])
  }

  lemma {:induction false} RunConcat(c: Crypto, cfg: Config, s: NodeState, a: seq<Step>, b: seq<Step>)
    requires s.tail in s.chain
    ensures Run(c, cfg, s, a + b) == Run(c, cfg, Run(c, cfg, s, a), b)
    decreases |a|
  {
    if a == [] {
      assert a + b == b;
    } else {
      assert (a + b)[1..] == a[1..] + b;
      RunConcat(c, cfg, Next(c, cfg, s, a[0]), a[1..], b);
    }
  }

  ghost function Receives(bs: seq<Block>): seq<Step> {
    seq(|bs|, i requires 0 <= i < |bs| => Receive(bs[i]))
  }

  lemma RunReceives(c: Crypto, cfg: Config, s: NodeState, bs: seq<Block>)
    requires s.tail in s.chain
    ensures Run(c, cfg, s, Receives(bs)) ==
      if bs == [] then s else Run(c, cfg, Next(c, cfg, s, Receive(bs[0])), Receives(bs[1..]))
  {
    if bs == [] {
      assert Receives(bs) == [];
    } else {
      assert Receives(bs)[0] == Receive(bs[0]) && Receives(bs)[1..] == Receives(bs[1..]);
    }
  }

  // ----- the invariant -----

  /** Block `h` is filed under its hash, and its parent is in the chain one level below. */
  ghost predicate Linked(s: NodeState, h: Hash) {
    && h in s.chain
    && var e := s.chain[h];
       && e.block.hash == h
       && e.block.prevHash in s.chain
       && e.height == s.chain[e.block.prevHash].height + 1
       && 0 < e.height
  }

  ghost predicate Tree(s: NodeState) {
    && s.tail in s.chain
    && GENESIS_HASH in s.chain
    && s.chain[GENESIS_HASH] == Entry(GENESIS, 0, map[])
    && forall h {:trigger Linked(s, h)} :: h in s.chain && h != GENESIS_HASH ==> Linked(s, h)
  }

  /** Block `h` was valid on its parent's ledger, and its own ledger is that one with the block applied. */
  ghost predicate ValidAt(c: Crypto, cfg: Config, s: NodeState, h: Hash) {
    && h in s.chain && s.chain[h].block.prevHash in s.chain
    && var e := s.chain[h];
       var l := s.chain[e.block.prevHash].ledger;
       && HeaderOk(c, cfg, e.block)
       && BodyVerdict(c, cfg, e.block, l) == None
       && e.ledger == BlockLedger(c, e.block, l)
  }

  ghost predicate Content(c: Crypto, cfg: Config, s: NodeState) {
    forall h {:trigger ValidAt(c, cfg, s, h)} :: h in s.chain && h != GENESIS_HASH ==> ValidAt(c, cfg, s, h)
  }

  ghost predicate NotAboveTail(s: NodeState, h: Hash) {
    h in s.chain && s.tail in s.chain && s.chain[h].height <= s.chain[s.tail].height
  }

  ghost predicate Logged(s: NodeState, h: Hash) {
    h in s.log
  }

  ghost predicate LogEntry(s: NodeState, i: int) {
    0 <= i < |s.log| && s.log[i] in s.chain
  }

  /** Entry `t` of the log is the tail and everything before it is lower. */
  ghost predicate FirstAt(s: NodeState, t: int) {
    && s.tail in s.chain && 0 <= t < |s.log| && s.log[t] == s.tail
    && forall i {:trigger LogEntry(s, i)} :: 0 <= i < t && LogEntry(s, i) ==>
      s.chain[s.log[i]].height < s.chain[s.tail].height
  }

  /** The log lists the chain once each, and the tail is the first block accepted at the greatest height. */
  ghost predicate TailFirst(s: NodeState) {
    && (forall h {:trigger Logged(s, h)} :: h in s.chain ==> Logged(s, h))
    && (forall i {:trigger LogEntry(s, i)} :: 0 <= i < |s.log| ==> LogEntry(s, i))
    && (forall i, j {:trigger LogEntry(s, i), LogEntry(s, j)} :: i < j && LogEntry(s, i) && LogEntry(s, j) ==>
          s.log[i] != s.log[j])
    && (forall h {:trigger NotAboveTail(s, h)} :: h in s.chain ==> NotAboveTail(s, h))
    && exists t :: FirstAt(s, t)
  }

  ghost predicate PoolKeyed(s: NodeState) {
    forall h :: h in s.pool ==> s.pool[h].hash == h
  }

  ghost predicate Inv(c: Crypto, cfg: Config, s: NodeState) {
    Tree(s) && Content(c, cfg, s) && TailFirst(s) && PoolKeyed(s)
  }

  /** `t` keeps every block of `s` with its height and ledger, and its tail is at least as high. */
  ghost predicate Extends(s: NodeState, t: NodeState) {
    && (forall h :: h in s.chain ==> h in t.chain && t.chain[h] == s.chain[h])
    && s.tail in s.chain && t.tail in t.chain
    && s.chain[s.tail].height <= t.chain[t.tail].height
  }

  lemma InitialInv(c: Crypto, cfg: Config)
    ensures Inv(c, cfg, INITIAL)
  {
    assert FirstAt(INITIAL, 0);
  }

  lemma HeightBound(s: NodeState, h: Hash)
    requires Tree(s) && h in s.chain
    ensures 0 <= s.chain[h].height && (s.chain[h].height == 0 <==> h == GENESIS_HASH)
  {
    assert h != GENESIS_HASH ==> Linked(s, h);
  }

  lemma AttachTree(c: Crypto, s: NodeState, b: Block)
    requires Tree(s) && b.hash !in s.chain && b.prevHash in s.chain
    ensures Tree(Attach(c, s, b)) && Extends(s, Attach(c, s, b))
  {
    var s' := Attach(c, s, b);
    HeightBound(s, b.prevHash);
    forall h | h in s'.chain && h != GENESIS_HASH
      ensures Linked(s', h)
    {
      assert h in s.chain ==> Linked(s, h);
    }
  }

  lemma DistinctSnoc(log: seq<Hash>, h: Hash)
    requires h !in log && forall i, j :: 0 <= i < j < |log| ==> log[i] != log[j]
    ensures forall i, j :: 0 <= i < j < |log + [h]| ==> (log + [h])[i] != (log + [h])[j]
  {
  }

  lemma AttachLog(s: NodeState, s': NodeState, b: Block)
    requires TailFirst(s) && s'.log == s.log + [b.hash] && b.hash !in s.chain
    requires forall h :: h in s'.chain <==> h == b.hash || h in s.chain
    ensures forall h :: h in s'.chain ==> Logged(s', h)
    ensures forall i :: 0 <= i < |s'.log| ==> LogEntry(s', i)
    ensures forall i, j :: 0 <= i < j < |s'.log| ==> s'.log[i] != s'.log[j]
  {
    forall i | 0 <= i < |s.log|
      ensures s'.log[i] == s.log[i] && s.log[i] in s.chain
    {
      assert LogEntry(s, i);
    }
    assert s'.log[|s.log|] == b.hash;
    forall h | h in s'.chain
      ensures Logged(s', h)
    {
      assert h in s.chain ==> Logged(s, h);
    }
    forall i, j | 0 <= i < j < |s.log|
      ensures s.log[i] != s.log[j]
    {
      assert LogEntry(s, i) && LogEntry(s, j);
    }
    DistinctSnoc(s.log, b.hash);
  }

  lemma AttachTailFirst(c: Crypto, s: NodeState, b: Block)
    requires Tree(s) && TailFirst(s) && b.hash !in s.chain && b.prevHash in s.chain
    ensures Tree(Attach(c, s, b)) && TailFirst(Attach(c, s, b))
  {
    AttachTree(c, s, b);
    var s' := Attach(c, s, b);
    AttachLog(s, s', b);
    forall h | h in s'.chain
      ensures NotAboveTail(s', h)
    {
      assert h in s.chain ==> NotAboveTail(s, h);
    }
    var t :| FirstAt(s, t);
    forall i | 0 <= i < |s.log|
      ensures LogEntry(s, i) && NotAboveTail(s, s.log[i])
      ensures s'.log[i] == s.log[i] && s'.chain[s.log[i]] == s.chain[s.log[i]]
    {
      assert LogEntry(s, i);
    }
    assert FirstAt(s', if s'.tail == s.tail then t else |s.log|);
  }

  /** An accepted block keeps the invariant and moves the tail exactly when told; a rejected one changes nothing. */
  lemma HandleKeepsInv(c: Crypto, cfg: Config, s: NodeState, b: Block)
    requires Inv(c, cfg, s)
    ensures var (s', r) := Handle(c, cfg, s, b);
      && Inv(c, cfg, s')
      && Extends(s, s')
      && (r.tailChange <==> s'.tail != s.tail)
      && (r.err.Some? ==> s' == s)
      && (r.err.None? <==> b.hash !in s.chain && b.hash in s'.chain)
  {
    if Check(c, cfg, s, b).None? {
      AttachTailFirst(c, s, b);
      var s' := Attach(c, s, b);
      forall h | h in s'.chain && h != GENESIS_HASH
        ensures ValidAt(c, cfg, s', h)
      {
        assert h in s.chain ==> Linked(s, h) && ValidAt(c, cfg, s, h);
      }
    }
  }

  lemma NextKeepsInv(c: Crypto, cfg: Config, s: NodeState, step: Step)
    requires Inv(c, cfg, s)
    ensures Inv(c, cfg, Next(c, cfg, s, step)) && Extends(s, Next(c, cfg, s, step))
  {
    match step
    case Receive(b) => HandleKeepsInv(c, cfg, s, b);
    case AddTx(_) =>
      var s' := Next(c, cfg, s, step);
      assert s' == s.(pool := s'.pool);
      SameChain(c, cfg, s, s');
    case RemoveTx(_) =>
      var s' := Next(c, cfg, s, step);
      assert s' == s.(pool := s'.pool);
      SameChain(c, cfg, s, s');
  }

  lemma SameChain(c: Crypto, cfg: Config, s: NodeState, s': NodeState)
    requires Inv(c, cfg, s) && s' == s.(pool := s'.pool) && PoolKeyed(s')
    ensures Inv(c, cfg, s') && Extends(s, s')
  {
    assert s'.chain == s.chain && s'.tail == s.tail && s'.log == s.log;
    forall h | h in s'.chain && h != GENESIS_HASH
      ensures Linked(s', h) && ValidAt(c, cfg, s', h)
    {
      assert Linked(s, h) && ValidAt(c, cfg, s, h);
    }
    forall h | h in s'.chain
      ensures Logged(s', h) && NotAboveTail(s', h)
    {
      assert Logged(s, h) && NotAboveTail(s, h);
    }
    forall i | 0 <= i < |s'.log|
      ensures LogEntry(s', i) && LogEntry(s, i)
    {
      assert LogEntry(s, i);
    }
    var t :| FirstAt(s, t);
    assert FirstAt(s', t);
  }

  lemma ExtendsTransitive(s: NodeState, t: NodeState, u: NodeState)
    requires Extends(s, t) && Extends(t, u)
    ensures Extends(s, u)
  {
  }

  /** The block tree, the cached ledgers and the tail rule hold in every reachable state, and no step
      ever changes or forgets an accepted block. */
  lemma {:induction false} RunKeepsInv(c: Crypto, cfg: Config, s: NodeState, steps: seq<Step>)
    requires Inv(c, cfg, s)
    ensures Inv(c, cfg, Run(c, cfg, s, steps)) && Extends(s, Run(c, cfg, s, steps))
    decreases |steps|
  {
    if steps == [] {
    } else {
      var s1 := Next(c, cfg, s, steps[0]);
      NextKeepsInv(c, cfg, s, steps[0]);
      RunKeepsInv(c, cfg, s1, steps[1..]);
      ExtendsTransitive(s, s1, Run(c, cfg, s1, steps[1..]));
    }
  }

  /** The state after the given steps of a brand new node. */
  ghost function Reached(c: Crypto, cfg: Config, steps: seq<Step>): (s: NodeState)
    ensures Inv(c, cfg, s)
  {
    InitialInv(c, cfg);
    RunKeepsInv(c, cfg, INITIAL, steps);
    Run(c, cfg, INITIAL, steps)
  }

  // ----- branches -----

  /** The hashes from genesis to `h`. */
  ghost function Path(s: NodeState, h: Hash): (p: seq<Hash>)
    requires Tree(s) && h in s.chain
    ensures 0 < |p| == s.chain[h].height + 1 && p[|p| - 1] == h && p[0] == GENESIS_HASH
    ensures forall i :: 0 <= i < |p| ==> p[i] in s.chain && s.chain[p[i]].height == i
    decreases s.chain[h].height
  {
    if h == GENESIS_HASH then [h] else assert Linked(s, h); Path(s, s.chain[h].block.prevHash) + [h]
  }

  /** The blocks after genesis on the branch ending in `h`. */
  ghost function Branch(s: NodeState, h: Hash): (bs: seq<Block>)
    requires Tree(s) && h in s.chain
    ensures |bs| == s.chain[h].height
    decreases s.chain[h].height
  {
    if h == GENESIS_HASH then [] else assert Linked(s, h); Branch(s, s.chain[h].block.prevHash) + [s.chain[h].block]
  }

  /** The longest chain. */
  ghost function MainChain(s: NodeState): seq<Hash>
    requires Tree(s)
  {
    Path(s, s.tail)
  }

  lemma {:induction false} ExtendsBranch(s: NodeState, t: NodeState, h: Hash)
    requires Tree(s) && Tree(t) && Extends(s, t) && h in s.chain
    ensures Path(t, h) == Path(s, h) && Branch(t, h) == Branch(s, h)
    decreases s.chain[h].height
  {
    if h == GENESIS_HASH {
    } else {
      assert Linked(s, h) && Linked(t, h);
      ExtendsBranch(s, t, s.chain[h].block.prevHash);
    }
  }

  /** The branch is read off the path. */
  lemma {:induction false} BranchOfPath(s: NodeState, h: Hash, i: nat)
    requires Tree(s) && h in s.chain && i < s.chain[h].height
    ensures Path(s, h)[i + 1] != GENESIS_HASH
    ensures Branch(s, h)[i] == s.chain[Path(s, h)[i + 1]].block
    decreases s.chain[h].height
  {
    HeightBound(s, h);
    assert Linked(s, h);
    if i == s.chain[h].height - 1 {
    } else {
      BranchOfPath(s, s.chain[h].block.prevHash, i);
    }
  }

  /** A path is a prefix of every path through its end. */
  lemma {:induction false} PathPrefix(s: NodeState, h: Hash, i: nat)
    requires Tree(s) && h in s.chain && i <= s.chain[h].height
    ensures Path(s, Path(s, h)[i]) == Path(s, h)[..i + 1]
    decreases s.chain[h].height
  {
    HeightBound(s, h);
    if i < s.chain[h].height {
      assert Linked(s, h);
      PathPrefix(s, s.chain[h].block.prevHash, i);
      assert Path(s, h)[..i + 1] == Path(s, s.chain[h].block.prevHash)[..i + 1];
    } else {
      assert Path(s, h)[..i + 1] == Path(s, h);
    }
  }

  lemma PathLink(s: NodeState, h: Hash, i: nat)
    requires Tree(s) && h in s.chain && i < s.chain[h].height
    ensures Path(s, h)[i + 1] != GENESIS_HASH
    ensures s.chain[Path(s, h)[i + 1]].block.prevHash == Path(s, h)[i]
  {
    BranchOfPath(s, h, i);
    PathPrefix(s, h, i + 1);
    var g := Path(s, h)[i + 1];
    assert Path(s, g)[..i + 2] == Path(s, g);
    assert Path(s, g)[i] == Path(s, h)[i];
  }

  // ----- cached ledgers are replays -----

  ghost function ReplayBranch(c: Crypto, bs: seq<Block>): Utxos {
    if bs == [] then map[] else BlockLedger(c, bs[|bs| - 1], ReplayBranch(c, bs[..|bs| - 1]))
  }

  lemma {:induction false} LedgerIsReplay(c: Crypto, cfg: Config, s: NodeState, h: Hash)
    requires Inv(c, cfg, s) && h in s.chain
    ensures s.chain[h].ledger == ReplayBranch(c, Branch(s, h))
    decreases s.chain[h].height
  {
    if h == GENESIS_HASH {
    } else {
      assert Linked(s, h) && ValidAt(c, cfg, s, h);
      LedgerIsReplay(c, cfg, s, s.chain[h].block.prevHash);
      var bs := Branch(s, h);
      assert bs[..|bs| - 1] == Branch(s, s.chain[h].block.prevHash);
    }
  }

  /** In every reachable state the snapshot kept with a block is the replay of its branch from genesis,
      and every later run leaves it so. */
  lemma CachedLedgerIsReplay(c: Crypto, cfg: Config, steps: seq<Step>, more: seq<Step>, h: Hash)
    requires h in Reached(c, cfg, steps).chain
    ensures var s := Reached(c, cfg, steps);
      var t := Run(c, cfg, s, more);
      && s.chain[h].ledger == ReplayBranch(c, Branch(s, h))
      && Tree(t) && h in t.chain && t.chain[h] == s.chain[h] && Branch(t, h) == Branch(s, h)
  {
    var s := Reached(c, cfg, steps);
    RunKeepsInv(c, cfg, s, more);
    LedgerIsReplay(c, cfg, s, h);
    ExtendsBranch(s, Run(c, cfg, s, more), h);
  }

  // ----- the window of blocks sent to a peer -----

  /** The blocks of the longest chain from height `i` on. */
  ghost function MainBlocks(s: NodeState, i: nat): (bs: seq<Block>)
    requires Tree(s) && i <= |MainChain(s)|
    ensures |bs| == |MainChain(s)| - i
  {
    var p := MainChain(s);
    seq(|p| - i, j requires 0 <= j < |p| - i => s.chain[p[i + j]].block)
  }

  /** Height of the first block to send to a peer whose tail is `hash`: the one after `hash` on the longest
      chain; the first after genesis if `hash` is not there; genesis itself if the chain has nothing else. */
  ghost function FirstToSend(s: NodeState, hash: Hash): (i: nat)
    requires Tree(s)
    ensures i <= |MainChain(s)|
  {
    var p := MainChain(s);
    if hash in p then s.chain[hash].height + 1
    else if |p| == 1 then 0
    else 1
  }

  ghost function Take(bs: seq<Block>, n: nat): seq<Block> {
    if |bs| <= n then bs else bs[..n]
  }

  /** At most `number` blocks from there, and whether that was all. */
  ghost function Window(s: NodeState, hash: Hash, number: int): (seq<Block>, bool)
    requires Tree(s)
  {
    var bs := MainBlocks(s, FirstToSend(s, hash));
    var n := if number < 0 then 0 else number;
    (Take(bs, n), |bs| <= n)
  }

  lemma MainBlocksAreBranch(s: NodeState, i: nat)
    requires Tree(s) && 1 <= i <= |MainChain(s)|
    ensures MainBlocks(s, i) == Branch(s, s.tail)[i - 1..]
  {
    var bs := MainBlocks(s, i);
    forall j | 0 <= j < |bs|
      ensures bs[j] == Branch(s, s.tail)[i - 1 + j]
    {
      BranchOfPath(s, s.tail, i - 1 + j);
    }
  }

  /** The window in terms of the branch of the tail: its blocks above `hash` if `hash` is on it, all of them if
      not, cut to `number`; on a chain with nothing but genesis, another hash is answered with genesis itself. */
  lemma WindowIsBranchSuffix(s: NodeState, hash: Hash, number: nat)
    requires Tree(s)
    ensures var branch := Branch(s, s.tail);
      var suffix := if hash in MainChain(s) then branch[s.chain[hash].height..]
                    else if branch != [] then branch
                    else [GENESIS];
      Window(s, hash, number) == (Take(suffix, number), |suffix| <= number)
  {
    var p := MainChain(s);
    if hash in p {
      var k :| 0 <= k < |p| && p[k] == hash;
      assert s.chain[p[k]].height == k;
      MainBlocksAreBranch(s, k + 1);
    } else if |p| > 1 {
      MainBlocksAreBranch(s, 1);
      assert Branch(s, s.tail)[0..] == Branch(s, s.tail);
    } else {
      HeightBound(s, s.tail);
      assert MainBlocks(s, 0) == [GENESIS];
    }
  }

  /** The hash on the longest chain `depth` blocks below the tail, or genesis if there are not so many. */
  ghost function HashAtDepth(s: NodeState, depth: int): (h: Hash)
    requires Tree(s)
    ensures h in MainChain(s) && h in s.chain
    ensures var top := s.chain[s.tail].height;
      s.chain[h].height == if depth <= 0 then top else if depth >= top then 0 else top - depth
  {
    var p := MainChain(s);
    if depth <= 0 then s.tail else if depth >= |p| then GENESIS_HASH else p[|p| - 1 - depth]
  }
}

/** Catching up with a peer, and the part of the server that handles an incoming block. */
module Sync {
  import opened Agreement
  import opened Node
  import opened NodeSpec
  import opened Types

  const BATCH_SIZE := 5

  ghost function OnMain(t: NodeState): set<Hash>
    requires Tree(t)
  {
    set h | h in MainChain(t)
  }

  lemma MainIsDownward(t: NodeState)
    requires Tree(t)
    ensures Downward(t, OnMain(t))
  {
    forall h | h in OnMain(t) && h != GENESIS_HASH
      ensures ParentIn(t, OnMain(t), h)
    {
      var i :| 0 <= i < |MainChain(t)| && MainChain(t)[i] == h;
      PathLink(t, t.tail, i - 1);
      assert MainChain(t)[i - 1] in MainChain(t);
    }
  }

  /** The client's tail is block `i` of the peer's longest chain, and what the client holds under a hash of that chain
      has the shape of what the peer holds. */
  ghost predicate Behind(c: Crypto, cfg: Config, s: NodeState, t: NodeState, i: int) {
    && cfg.Valid() && Inv(c, cfg, s) && Inv(c, cfg, t)
    && DigestSeparates(c, s, t, OnMain(t)) && SameShapes(s, t, OnMain(t))
    && 0 <= i < |MainChain(t)| && s.tail == MainChain(t)[i]
  }

  lemma NotHeldYet(c: Crypto, cfg: Config, s: NodeState, t: NodeState, i: nat)
    requires Behind(c, cfg, s, t, i) && i + 1 < |MainChain(t)|
    ensures MainChain(t)[i + 1] !in s.chain
  {
    var h := MainChain(t)[i + 1];
    MainIsDownward(t);
    CollisionFreeExactly(c, cfg, s, t, OnMain(t));
    SameHashSameLedger(c, cfg, s, t, OnMain(t), s.tail);
    if h in s.chain {
      SameHashSameLedger(c, cfg, s, t, OnMain(t), h);
    }
    assert h in s.chain ==> NotAboveTail(s, h);
  }

  /** The block just above the client's tail on a peer's chain is always acceptable. */
  lemma NextBlockAccepted(c: Crypto, cfg: Config, s: NodeState, t: NodeState, i: nat)
    requires Behind(c, cfg, s, t, i) && i + 1 < |MainChain(t)|
    ensures Check(c, cfg, s, t.chain[MainChain(t)[i + 1]].block) == None
  {
    var h := MainChain(t)[i + 1];
    PathLink(t, t.tail, i);
    assert Linked(t, h) && ValidAt(c, cfg, t, h);
    MainIsDownward(t);
    CollisionFreeExactly(c, cfg, s, t, OnMain(t));
    SameHashSameLedger(c, cfg, s, t, OnMain(t), s.tail);
    NotHeldYet(c, cfg, s, t, i);
  }

  /** It becomes the client's tail. */
  lemma NextBlockAdvances(c: Crypto, cfg: Config, s: NodeState, t: NodeState, i: nat)
    requires Behind(c, cfg, s, t, i) && i + 1 < |MainChain(t)|
    ensures var b := t.chain[MainChain(t)[i + 1]].block;
      Behind(c, cfg, Next(c, cfg, s, Receive(b)), t, i + 1)
  {
    var h := MainChain(t)[i + 1];
    var b := t.chain[h].block;
    NextBlockAccepted(c, cfg, s, t, i);
    PathLink(t, t.tail, i);
    assert Linked(t, h);
    HandleKeepsInv(c, cfg, s, b);
    OneBlockMore(c, s, t, Next(c, cfg, s, Receive(b)), h);
  }

  lemma OneBlockMore(c: Crypto, s: NodeState, t: NodeState, s': NodeState, h: Hash)
    requires Tree(t) && DigestSeparates(c, s, t, OnMain(t)) && SameShapes(s, t, OnMain(t)) && h in t.chain
    requires forall g :: g in s'.chain ==>
      if g == h then s'.chain[g].block == t.chain[h].block else g in s.chain && s'.chain[g] == s.chain[g]
    ensures DigestSeparates(c, s', t, OnMain(t)) && SameShapes(s', t, OnMain(t))
  {
    forall g | Shared(s', t, OnMain(t), g)
      ensures SeparatedAt(c, s', t, g) && SameShapeAt(s', t, g)
    {
      assert g in s.chain ==> SeparatedAt(c, s, t, g) && SameShapeAt(s, t, g);
    }
  }

  /** Every block of a sequence is accepted when delivered in order. */
  ghost predicate AllAccepted(c: Crypto, cfg: Config, s: NodeState, bs: seq<Block>)
    requires s.tail in s.chain
    decreases |bs|
  {
    bs == [] ||
    (&& Check(c, cfg, s, bs[0]) == None
     && AllAccepted(c, cfg, Next(c, cfg, s, Receive(bs[0])), bs[1..]))
  }

  /** `bs` is the peer's main-chain blocks from height `i + 1` to `j`. */
  ghost predicate Continues(t: NodeState, bs: seq<Block>, i: int, j: int) {
    && Tree(t) && 0 <= i && |bs| == j - i && j < |MainChain(t)|
    && forall k :: 0 <= k < |bs| ==> bs[k] == t.chain[MainChain(t)[i + 1 + k]].block
  }

  lemma ContinuesTail(t: NodeState, bs: seq<Block>, i: int, j: int)
    requires Continues(t, bs, i, j) && bs != []
    ensures bs[0] == t.chain[MainChain(t)[i + 1]].block && Continues(t, bs[1..], i + 1, j)
  {
    var rest := bs[1..];
    forall k | 0 <= k < |rest|
      ensures rest[k] == t.chain[MainChain(t)[i + 1 + 1 + k]].block
    {
      assert rest[k] == bs[k + 1] == t.chain[MainChain(t)[i + 1 + (k + 1)]].block;
    }
  }

  /** Client and batch after the first block of the batch. */
  lemma BatchStep(c: Crypto, cfg: Config, s: NodeState, t: NodeState, bs: seq<Block>, i: nat, j: nat)
    returns (s1: NodeState)
    requires Behind(c, cfg, s, t, i) && Continues(t, bs, i, j) && bs != []
    ensures s1.tail in s1.chain && Run(c, cfg, s, Receives(bs)) == Run(c, cfg, s1, Receives(bs[1..]))
    ensures AllAccepted(c, cfg, s1, bs[1..]) ==> AllAccepted(c, cfg, s, bs)
    ensures Behind(c, cfg, s1, t, i + 1) && Continues(t, bs[1..], i + 1, j)
  {
    s1 := Next(c, cfg, s, Receive(bs[0]));
    RunReceives(c, cfg, s, bs);
    ContinuesTail(t, bs, i, j);
    NextBlockAccepted(c, cfg, s, t, i);
    NextBlockAdvances(c, cfg, s, t, i);
  }

  /** The next blocks of the peer's chain carry the tail from height `i` to `j`. */
  lemma {:induction false} BatchArrives(
      c: Crypto, cfg: Config, s: NodeState, t: NodeState, bs: seq<Block>, i: nat, j: nat) returns (s': NodeState)
    requires Behind(c, cfg, s, t, i) && Continues(t, bs, i, j)
    ensures s' == Run(c, cfg, s, Receives(bs)) && Behind(c, cfg, s', t, j)
    decreases |bs|
  {
    if bs == [] {
      RunReceives(c, cfg, s, bs);
      s' := s;
    } else {
      var s1 := BatchStep(c, cfg, s, t, bs, i, j);
      s' := BatchArrives(c, cfg, s1, t, bs[1..], i + 1, j);
    }
  }

  /** They are all accepted, in order. */
  lemma {:induction false} BatchAccepted(
      c: Crypto, cfg: Config, s: NodeState, t: NodeState, bs: seq<Block>, i: nat, j: nat)
    requires Behind(c, cfg, s, t, i) && Continues(t, bs, i, j)
    ensures AllAccepted(c, cfg, s, bs)
    decreases |bs|
  {
    if bs == [] {
    } else {
      var s1 := BatchStep(c, cfg, s, t, bs, i, j);
      BatchAccepted(c, cfg, s1, t, bs[1..], i + 1, j);
    }
  }

  /** How far one round brings a client that is `left` blocks short. */
  function Stride(left: nat): (n: nat)
    ensures n == if left <= 5 then left else 5
  {
    if left <= BATCH_SIZE then left else BATCH_SIZE
  }

  /** What a peer sends to a client at height `i` is the next blocks, and `synced` means that was all. */
  lemma WindowFor(t: NodeState, i: nat)
    requires Tree(t) && i < |MainChain(t)|
    ensures var left := |MainChain(t)| - 1 - i;
      var (bs, synced) := Window(t, MainChain(t)[i], BATCH_SIZE);
      && synced == (left <= BATCH_SIZE)
      && |bs| == Stride(left) && Continues(t, bs, i, i + Stride(left))
  {
    assert t.chain[MainChain(t)[i]].height == i;
    assert MainChain(t)[i] in MainChain(t);
    assert FirstToSend(t, MainChain(t)[i]) == i + 1;
  }

  /** One round brings the client up by five blocks, or to the peer's tail. */
  lemma RoundAdvances(c: Crypto, cfg: Config, s: NodeState, t: NodeState, i: nat)
    requires Behind(c, cfg, s, t, i)
    ensures var left := |MainChain(t)| - 1 - i;
      var (bs, synced) := Window(t, s.tail, BATCH_SIZE);
      && synced == (left <= 5)
      && |bs| == (if left <= 5 then left else 5) && AllAccepted(c, cfg, s, bs)
      && Behind(c, cfg, Run(c, cfg, s, Receives(bs)), t, i + Stride(left))
  {
    WindowFor(t, i);
    var bs, j := Window(t, s.tail, BATCH_SIZE).0, i + Stride(|MainChain(t)| - 1 - i);
    BatchAccepted(c, cfg, s, t, bs, i, j);
    var _ := BatchArrives(c, cfg, s, t, bs, i, j);
  }

  /** Two peers with the same blocks on their longest chains, whatever forks and pools they hold. */
  ghost predicate Alike(t: NodeState, u: NodeState) {
    Tree(t) && Tree(u) && MainChain(t) == MainChain(u) && MainBlocks(t, 0) == MainBlocks(u, 0)
  }

  lemma SameWindow(t: NodeState, u: NodeState, hash: Hash, n: int)
    requires Alike(t, u)
    ensures Window(t, hash, n) == Window(u, hash, n)
  {
    var p := MainChain(t);
    if hash in p {
      var k :| 0 <= k < |p| && p[k] == hash;
      assert t.chain[p[k]].height == k && u.chain[p[k]].height == k;
    }
    var i := FirstToSend(t, hash);
    assert MainBlocks(t, i) == MainBlocks(t, 0)[i..];
    assert MainBlocks(u, i) == MainBlocks(u, 0)[i..];
  }

  /** One tail, one chain, one height, one ledger. */
  ghost predicate InSync(s: NodeState, t: NodeState) {
    && Tree(s) && Tree(t)
    && s.tail == t.tail && MainChain(s) == MainChain(t)
    && s.chain[s.tail].height == t.chain[t.tail].height
    && s.chain[s.tail].ledger == t.chain[t.tail].ledger
  }

  lemma CaughtUp(c: Crypto, cfg: Config, s: NodeState, t: NodeState, i: nat)
    requires Behind(c, cfg, s, t, i) && i == |MainChain(t)| - 1
    ensures InSync(s, t)
  {
    MainIsDownward(t);
    CollisionFreeExactly(c, cfg, s, t, OnMain(t));
    SameHashSameLedger(c, cfg, s, t, OnMain(t), t.tail);
  }

  /** Rounds needed for a gap: at least one, and one for every five blocks or part of five. */
  function Rounds(gap: nat): nat {
    if gap <= BATCH_SIZE then 1 else 1 + Rounds(gap - BATCH_SIZE)
  }

  lemma {:induction false} RoundsIsCeiling(gap: nat)
    ensures Rounds(gap) == if gap == 0 then 1 else (gap + 4) / 5
  {
    if gap <= BATCH_SIZE {
    } else {
      RoundsIsCeiling(gap - BATCH_SIZE);
    }
  }

  /** Handle a block and, when asked and accepted, send it on. The messages sent are returned. */
  method SetBlockInternal(f: FullNode, peers: seq<string>, b: Block, broadcast: bool)
    returns (sent: seq<string>, tailChange: bool, outOfSync: bool, err: Option<Error>)
    requires f.Valid()
    modifies f.Repr
    ensures f.Valid()
    ensures (f.State, Reply(tailChange, outOfSync, err)) == Handle(f.crypto, f.config, old(f.State), b)
    ensures sent == if err.None? && broadcast then peers else []
    ensures forall o :: o in f.Repr && o !in old(f.Repr) ==> fresh(o)
  {
    sent := [];
    tailChange, outOfSync, err := f.HandleNewBlock(b);
    if err.Some? || !broadcast {
      return;
    }
    sent := Broadcast(peers);
  }

  /** One message to every peer, in the order of the list. */
  method Broadcast(peers: seq<string>) returns (sent: seq<string>)
    ensures sent == peers
  {
    sent := [];
    for i := 0 to |peers|
      invariant sent == peers[..i]
    {
      sent := sent + [peers[i]];
    }
  }

  method SetBlocks(f: FullNode, bs: seq<Block>)
    requires f.Valid()
    modifies f.Repr
    ensures f.Valid()
    ensures f.State == Run(f.crypto, f.config, old(f.State), Receives(bs))
    ensures forall o :: o in f.Repr && o !in old(f.Repr) ==> fresh(o)
  {
    for i := 0 to |bs|
      invariant f.Valid()
      invariant Run(f.crypto, f.config, f.State, Receives(bs[i..])) ==
        Run(f.crypto, f.config, old(f.State), Receives(bs))
      invariant forall o :: o in f.Repr && o !in old(f.Repr) ==> fresh(o)
    {
      RunReceives(f.crypto, f.config, f.State, bs[i..]);
      assert bs[i..][1..] == bs[i + 1..];
      var _, _, _, _ := SetBlockInternal(f, [], bs[i], false);
    }
    RunReceives(f.crypto, f.config, f.State, bs[|bs|..]);
  }

  /** The same with an answer from any peer like `t`. */
  lemma RoundWith(c: Crypto, cfg: Config, s: NodeState, t: NodeState, u: NodeState, i: nat)
    requires Behind(c, cfg, s, t, i) && Alike(u, t)
    ensures var left := |MainChain(t)| - 1 - i;
      && Window(u, s.tail, BATCH_SIZE).1 == (left <= BATCH_SIZE)
      && Behind(c, cfg, Run(c, cfg, s, Receives(Window(u, s.tail, BATCH_SIZE).0)), t, i + Stride(left))
  {
    RoundAdvances(c, cfg, s, t, i);
    SameWindow(u, t, s.tail, BATCH_SIZE);
  }

  /** The peers' objects are apart from the client's, and every peer would answer as a node in state `t`. */
  ghost predicate PeersLike(f: FullNode, peers: seq<FullNode>, t: NodeState)
    reads f, peers, set k, o | 0 <= k < |peers| && o in peers[k].Repr :: o
    reads set k | 0 <= k < |peers| :: peers[k].blockchain
  {
    forall k :: 0 <= k < |peers| ==> peers[k].Valid() && f.Repr !! peers[k].Repr && Alike(peers[k].State, t)
  }

  /** Query the peers in turn until one says that was all. With unchanging peers that share a longest chain
      which has the client's tail at height `i`, the loop ends after the rounds the gap needs, with the
      client's tail, chain, height and ledger equal to theirs. */
  method SyncToLatest(f: FullNode, peers: seq<FullNode>, ghost t: NodeState, ghost i: nat) returns (rounds: nat)
    requires peers != [] && f.Valid() && PeersLike(f, peers, t) && Behind(f.crypto, f.config, f.State, t, i)
    modifies f.Repr
    ensures f.Valid() && PeersLike(f, peers, t)
    ensures rounds == Rounds(|MainChain(t)| - 1 - i)
    ensures InSync(f.State, t)
    ensures forall o :: o in f.Repr && o !in old(f.Repr) ==> fresh(o)
  {
    ghost var top, at := |MainChain(t)| - 1, i;
    rounds := 0;
    var tail := f.GetTail();
    var turn := 0;
    while true
      invariant 0 <= turn && at <= top
      invariant f.Valid() && tail.B.hash == f.State.tail && PeersLike(f, peers, t)
      invariant forall o :: o in f.Repr && o !in old(f.Repr) ==> fresh(o)
      invariant Behind(f.crypto, f.config, f.State, t, at)
      invariant rounds + Rounds(top - at) == Rounds(top - i)
      decreases top - at
    {
      turn := turn % |peers|;
      var synced := SyncRound(f, peers, turn, tail.B.hash, t, at);
      assert Rounds(top - at) == if synced then 1 else 1 + Rounds(top - at - BATCH_SIZE);
      rounds, at := rounds + 1, at + Stride(top - at);
      if synced {
        break;
      }
      tail := f.GetTail();
      turn := turn + 1;
    }
    CaughtUp(f.crypto, f.config, f.State, t, at);
  }

  /** One query and the delivery of its answer, with no broadcast. */
  method SyncRound(f: FullNode, peers: seq<FullNode>, turn: nat, hash: Hash, ghost t: NodeState, ghost at: nat)
    returns (synced: bool)
    requires f.Valid() && PeersLike(f, peers, t) && turn < |peers| && hash == f.State.tail
    requires Behind(f.crypto, f.config, f.State, t, at)
    modifies f.Repr
    ensures f.Valid() && PeersLike(f, peers, t)
    ensures var left := |MainChain(t)| - 1 - at;
      && synced == (left <= BATCH_SIZE)
      && Behind(f.crypto, f.config, f.State, t, at + Stride(left))
    ensures forall o :: o in f.Repr && o !in old(f.Repr) ==> fresh(o)
  {
    RoundWith(f.crypto, f.config, f.State, t, peers[turn].State, at);
    synced := QueryPeer(f, peers, turn, hash, t);
  }

  method QueryPeer(f: FullNode, peers: seq<FullNode>, turn: nat, hash: Hash, ghost t: NodeState) returns (synced: bool)
    requires f.Valid() && PeersLike(f, peers, t) && turn < |peers| && Tree(peers[turn].State)
    modifies f.Repr
    ensures f.Valid() && PeersLike(f, peers, t)
    ensures Tree(old(peers[turn].State))
    ensures var (bs, done) := Window(old(peers[turn].State), hash, BATCH_SIZE);
      synced == done && f.State == Run(f.crypto, f.config, old(f.State), Receives(bs))
    ensures forall o :: o in f.Repr && o !in old(f.Repr) ==> fresh(o)
  {
    var blocks;
    blocks, synced := peers[turn].GetBlocks(hash, BATCH_SIZE);
    ghost var kept := f.Valid() && PeersLike(f, peers, t);
    assert kept;
    SetBlocksBeside(f, peers, blocks, t);
  }

  /** Delivering blocks to the client leaves the peers as they were. */
  method SetBlocksBeside(f: FullNode, peers: seq<FullNode>, blocks: seq<Block>, ghost t: NodeState)
    requires f.Valid() && PeersLike(f, peers, t)
    modifies f.Repr
    ensures f.Valid() && PeersLike(f, peers, t)
    ensures f.State == Run(f.crypto, f.config, old(f.State), Receives(blocks))
    ensures forall o :: o in f.Repr && o !in old(f.Repr) ==> fresh(o)
  {
    SetBlocks(f, blocks);
    forall k | 0 <= k < |peers|
      ensures peers[k].Valid() && f.Repr !! peers[k].Repr && Alike(peers[k].State, t)
    {
      var kept := peers[k].Valid() && Alike(peers[k].State, t);
      assert kept;
    }
  }
}

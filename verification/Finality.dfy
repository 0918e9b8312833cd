/** When a block stays on the longest chain for ever, and how a buried block leaves it. */
module Finality {
  import opened NodeSpec
  import opened Types

  /** Block `x` is on the longest chain, `depth` below its end. */
  ghost predicate Buried(s: NodeState, x: Hash, depth: int) {
    && Tree(s) && x in s.chain && x in MainChain(s)
    && s.chain[s.tail].height - s.chain[x].height == depth
  }

  /** Block `x` is held, but not on the longest chain. */
  ghost predicate Aside(s: NodeState, x: Hash) {
    Tree(s) && x in s.chain && x !in MainChain(s)
  }

  ghost predicate Live(cfg: Config, s: NodeState, h: Hash)
    requires Tree(s)
  {
    h in s.chain && s.chain[s.tail].height - s.chain[h].height <= cfg.confirmation
  }

  /** Every block that can still be extended descends from `x`. */
  ghost predicate Final(cfg: Config, s: NodeState, x: Hash)
    requires Tree(s)
  {
    x in s.chain && forall h :: Live(cfg, s, h) ==> x in Path(s, h)
  }

  /** The path of a block just attached is its parent's path with the block at the end. */
  lemma AttachedPath(s: NodeState, s': NodeState, b: Block)
    requires Tree(s) && Tree(s') && Extends(s, s')
    requires b.hash !in s.chain && b.prevHash in s.chain && b.hash in s'.chain && s'.chain[b.hash].block == b
    ensures Path(s', b.hash) == Path(s, b.prevHash) + [b.hash]
  {
    ExtendsBranch(s, s', b.prevHash);
    assert Linked(s', b.hash);
  }

  lemma FinalStep(c: Crypto, cfg: Config, s: NodeState, step: Step, x: Hash)
    requires Inv(c, cfg, s) && Final(cfg, s, x)
    ensures Inv(c, cfg, Next(c, cfg, s, step)) && Final(cfg, Next(c, cfg, s, step), x)
  {
    var s' := Next(c, cfg, s, step);
    NextKeepsInv(c, cfg, s, step);
    forall h | Live(cfg, s', h)
      ensures x in Path(s', h)
    {
      if h in s.chain {
        assert Live(cfg, s, h);
        ExtendsBranch(s, s', h);
      } else {
        assert Live(cfg, s, step.block.prevHash);
        AttachedPath(s, s', step.block);
      }
    }
  }

  /** Once every live block descends from `x`, that remains so after any run, and `x` stays on the
      longest chain for ever. */
  lemma {:induction false} FinalForever(c: Crypto, cfg: Config, s: NodeState, steps: seq<Step>, x: Hash)
    requires cfg.Valid() && Inv(c, cfg, s) && Final(cfg, s, x)
    ensures var t := Run(c, cfg, s, steps);
      Inv(c, cfg, t) && Final(cfg, t, x) && x in MainChain(t)
    decreases |steps|
  {
    if steps == [] {
      assert Live(cfg, s, s.tail);
    } else {
      FinalStep(c, cfg, s, steps[0], x);
      FinalForever(c, cfg, Next(c, cfg, s, steps[0]), steps[1..], x);
    }
  }

  /** Blocks with new hashes that are valid one on top of the other, starting on ledger `l` of block `y`. */
  ghost predicate ValidExtension(c: Crypto, cfg: Config, s: NodeState, y: Hash, l: Utxos, bs: seq<Block>)
    decreases |bs|
  {
    bs == [] ||
    (&& bs[0].prevHash == y
     && bs[0].hash !in s.chain
     && (forall i :: 0 < i < |bs| ==> bs[i].hash != bs[0].hash)
     && HeaderOk(c, cfg, bs[0])
     && BodyVerdict(c, cfg, bs[0], l) == None
     && ValidExtension(c, cfg, s, bs[0].hash, BlockLedger(c, bs[0], l), bs[1..]))
  }

  lemma {:induction false} ExtensionSurvives(
      c: Crypto, cfg: Config, s: NodeState, s': NodeState, y: Hash, l: Utxos, bs: seq<Block>, h: Hash)
    requires ValidExtension(c, cfg, s, y, l, bs)
    requires forall g :: g in s'.chain ==> g in s.chain || g == h
    requires forall i :: 0 <= i < |bs| ==> bs[i].hash != h
    ensures ValidExtension(c, cfg, s', y, l, bs)
    decreases |bs|
  {
    if bs == [] {
    } else {
      assert forall i :: 0 <= i < |bs| - 1 ==> bs[1..][i] == bs[i + 1];
      ExtensionSurvives(c, cfg, s, s', bs[0].hash, BlockLedger(c, bs[0], l), bs[1..], h);
    }
  }

  /** A live block accepts the next block of an extension. */
  lemma ForkStep(c: Crypto, cfg: Config, s: NodeState, y: Hash, bs: seq<Block>)
    requires Inv(c, cfg, s) && Live(cfg, s, y) && bs != []
    requires ValidExtension(c, cfg, s, y, s.chain[y].ledger, bs)
    ensures var s', b := Next(c, cfg, s, Receive(bs[0])), bs[0];
      && Inv(c, cfg, s') && Extends(s, s') && b.hash !in s.chain
      && b.hash in s'.chain && s'.chain[b.hash].height == s.chain[y].height + 1
      && s'.tail == (if s.chain[y].height < s.chain[s.tail].height then s.tail else b.hash)
      && (forall g :: g in s'.chain ==> g in s.chain || g == b.hash)
    ensures Path(Next(c, cfg, s, Receive(bs[0])), bs[0].hash) == Path(s, y) + [bs[0].hash]
  {
    assert Check(c, cfg, s, bs[0]) == None;
    HandleKeepsInv(c, cfg, s, bs[0]);
    AttachedPath(s, Next(c, cfg, s, Receive(bs[0])), bs[0]);
    assert NotAboveTail(s, y);
  }

  lemma ForkRest(c: Crypto, cfg: Config, s: NodeState, y: Hash, bs: seq<Block>)
    requires Inv(c, cfg, s) && Live(cfg, s, y) && bs != []
    requires ValidExtension(c, cfg, s, y, s.chain[y].ledger, bs)
    ensures var s', h := Next(c, cfg, s, Receive(bs[0])), bs[0].hash;
      h in s'.chain && ValidExtension(c, cfg, s', h, s'.chain[h].ledger, bs[1..])
  {
    var b, l := bs[0], s.chain[y].ledger;
    ForkStep(c, cfg, s, y, bs);
    assert forall i :: 0 <= i < |bs| - 1 ==> bs[1..][i] == bs[i + 1];
    ExtensionSurvives(c, cfg, s, Next(c, cfg, s, Receive(b)), b.hash, BlockLedger(c, b, l), bs[1..], b.hash);
  }

  /** A live block `y` that does not descend from `x`, with valid blocks to put on it that reach one above the
      tail. */
  ghost predicate Fork(c: Crypto, cfg: Config, s: NodeState, x: Hash, y: Hash, bs: seq<Block>) {
    && Inv(c, cfg, s) && x in s.chain && Live(cfg, s, y) && x !in Path(s, y)
    && ValidExtension(c, cfg, s, y, s.chain[y].ledger, bs)
    && |bs| == s.chain[s.tail].height - s.chain[y].height + 1
  }

  lemma ForkAdvances(c: Crypto, cfg: Config, s: NodeState, x: Hash, y: Hash, bs: seq<Block>)
    requires Fork(c, cfg, s, x, y, bs) && |bs| > 1
    ensures Fork(c, cfg, Next(c, cfg, s, Receive(bs[0])), x, bs[0].hash, bs[1..])
  {
    ForkStep(c, cfg, s, y, bs);
    ForkRest(c, cfg, s, y, bs);
  }

  /** A block `x` left aside by a tail that is `h`. */
  ghost predicate TakenOver(c: Crypto, cfg: Config, s: NodeState, h: Hash, x: Hash) {
    Inv(c, cfg, s) && s.tail == h && Aside(s, x)
  }

  lemma LastStepTakesOver(c: Crypto, cfg: Config, s: NodeState, x: Hash, y: Hash, bs: seq<Block>)
    requires Fork(c, cfg, s, x, y, bs) && |bs| == 1
    ensures TakenOver(c, cfg, Next(c, cfg, s, Receive(bs[0])), bs[0].hash, x)
  {
    ForkStep(c, cfg, s, y, bs);
  }

  /** The converse: a live block that does not descend from `x` can carry the tail away from `x`, however
      deep `x` is buried, as soon as enough valid blocks are mined on it. */
  lemma {:induction false} LiveForkTakesOver(
      c: Crypto, cfg: Config, s: NodeState, x: Hash, y: Hash, bs: seq<Block>) returns (t: NodeState)
    requires Fork(c, cfg, s, x, y, bs) && bs != []
    ensures t == Run(c, cfg, s, Receives(bs)) && TakenOver(c, cfg, t, bs[|bs| - 1].hash, x)
    decreases |bs|
  {
    var s' := Next(c, cfg, s, Receive(bs[0]));
    RunReceives(c, cfg, s, bs);
    if |bs| == 1 {
      LastStepTakesOver(c, cfg, s, x, y, bs);
      t := s';
    } else {
      ForkAdvances(c, cfg, s, x, y, bs);
      t := LiveForkTakesOver(c, cfg, s', x, bs[0].hash, bs[1..]);
    }
  }

  // ----- no forks -----

  ghost predicate NoFork(s: NodeState) {
    Tree(s) && forall h :: h in s.chain ==> h in MainChain(s)
  }

  lemma NoForkStep(c: Crypto, cfg: Config, s: NodeState, step: Step)
    requires cfg.confirmation == 0 && Inv(c, cfg, s) && NoFork(s)
    ensures NoFork(Next(c, cfg, s, step))
  {
    var s' := Next(c, cfg, s, step);
    NextKeepsInv(c, cfg, s, step);
    ExtendsBranch(s, s', s.tail);
    if step.Receive? && Check(c, cfg, s, step.block) == None {
      var p, q := step.block.prevHash, MainChain(s);
      assert NotAboveTail(s, p);
      var i :| 0 <= i < |q| && q[i] == p;
      assert s.chain[q[i]].height == i;
      assert p == s.tail;
      AttachedPath(s, s', step.block);
    }
  }

  lemma {:induction false} NoForkRun(c: Crypto, cfg: Config, s: NodeState, steps: seq<Step>)
    requires cfg.confirmation == 0 && Inv(c, cfg, s) && NoFork(s)
    ensures NoFork(Run(c, cfg, s, steps))
    decreases |steps|
  {
    if steps == [] {
    } else {
      NextKeepsInv(c, cfg, s, steps[0]);
      NoForkStep(c, cfg, s, steps[0]);
      NoForkRun(c, cfg, Next(c, cfg, s, steps[0]), steps[1..]);
    }
  }

  /** With confirmation depth 0 there are never two branches: every accepted block is on the longest chain, and
      stays there for ever. */
  lemma NoForksAtDepthZero(c: Crypto, cfg: Config, steps: seq<Step>, more: seq<Step>, x: Hash)
    requires cfg.confirmation == 0 && x in Reached(c, cfg, steps).chain
    ensures var s := Reached(c, cfg, steps);
      var t := Run(c, cfg, s, more);
      && x in MainChain(s)
      && Tree(t) && x in MainChain(t)
  {
    InitialInv(c, cfg);
    assert NoFork(INITIAL);
    NoForkRun(c, cfg, INITIAL, steps);
    NoForkRun(c, cfg, Reached(c, cfg, steps), more);
    RunKeepsInv(c, cfg, Reached(c, cfg, steps), more);
  }

  // ----- two branches growing side by side -----

  /** A block of one, then a block of the other. */
  ghost function Alternate(bs: seq<Block>, ds: seq<Block>): seq<Step> {
    if bs == [] || ds == [] then []
    else [Receive(bs[0]), Receive(ds[0])] + Alternate(bs[1..], ds[1..])
  }

  ghost predicate Apart(bs: seq<Block>, ds: seq<Block>) {
    forall i, j :: 0 <= i < |bs| && 0 <= j < |ds| ==> bs[i].hash != ds[j].hash
  }

  /** `y` is `gap` below the tail; `bs` go on the tail, and `ds` on `y`. */
  ghost predicate Branches(
    c: Crypto, cfg: Config, s: NodeState, y: Hash, gap: nat, bs: seq<Block>, ds: seq<Block>)
  {
    && Inv(c, cfg, s) && 1 <= cfg.confirmation && gap <= 1
    && y in s.chain && s.chain[y].height + gap == s.chain[s.tail].height
    && ValidExtension(c, cfg, s, s.tail, s.chain[s.tail].ledger, bs)
    && ValidExtension(c, cfg, s, y, s.chain[y].ledger, ds)
    && Apart(bs, ds)
  }

  lemma SideBySide(c: Crypto, cfg: Config, s: NodeState, bs: seq<Block>, ds: seq<Block>)
    requires Inv(c, cfg, s) && 1 <= cfg.confirmation && Apart(bs, ds)
    requires ValidExtension(c, cfg, s, s.tail, s.chain[s.tail].ledger, bs)
    requires ValidExtension(c, cfg, s, s.tail, s.chain[s.tail].ledger, ds)
    ensures Branches(c, cfg, s, s.tail, 0, bs, ds)
  {
  }

  /** The tail descends from `x`, and `y` does not. */
  ghost predicate Race(
    c: Crypto, cfg: Config, s: NodeState, x: Hash, y: Hash, gap: nat, bs: seq<Block>, ds: seq<Block>)
  {
    Branches(c, cfg, s, y, gap, bs, ds) && x in MainChain(s) && x !in Path(s, y)
  }

  /** Block `h` arriving leaves an extension of `y` it is not part of as it was. */
  lemma KeepsExtension(
      c: Crypto, cfg: Config, s: NodeState, s': NodeState, y: Hash, bs: seq<Block>, h: Hash)
    requires y in s.chain && Extends(s, s') && forall g :: g in s'.chain ==> g in s.chain || g == h
    requires ValidExtension(c, cfg, s, y, s.chain[y].ledger, bs)
    requires forall i :: 0 <= i < |bs| ==> bs[i].hash != h
    ensures ValidExtension(c, cfg, s', y, s'.chain[y].ledger, bs)
  {
    ExtensionSurvives(c, cfg, s, s', y, s.chain[y].ledger, bs, h);
  }

  lemma ApartRests(bs: seq<Block>, ds: seq<Block>)
    requires Apart(bs, ds)
    ensures bs != [] ==> Apart(bs[1..], ds)
    ensures ds != [] ==> Apart(bs, ds[1..])
  {
    assert bs != [] ==> forall i :: 0 <= i < |bs| - 1 ==> bs[1..][i] == bs[i + 1];
    assert ds != [] ==> forall i :: 0 <= i < |ds| - 1 ==> ds[1..][i] == ds[i + 1];
  }

  /** The next block for the tail becomes the tail and leaves `y` one behind. */
  lemma LeaderBranches(c: Crypto, cfg: Config, s: NodeState, y: Hash, bs: seq<Block>, ds: seq<Block>)
    requires Branches(c, cfg, s, y, 0, bs, ds) && bs != []
    ensures var s' := Next(c, cfg, s, Receive(bs[0]));
      && Extends(s, s') && s'.tail == bs[0].hash && s'.chain[s'.tail].height == s.chain[s.tail].height + 1
      && bs[0].hash !in s.chain
      && Branches(c, cfg, s', y, 1, bs[1..], ds)
      && MainChain(s') == MainChain(s) + [bs[0].hash] && Path(s', y) == Path(s, y)
  {
    var s' := Next(c, cfg, s, Receive(bs[0]));
    ForkStep(c, cfg, s, s.tail, bs);
    ForkRest(c, cfg, s, s.tail, bs);
    ExtendsBranch(s, s', y);
    KeepsExtension(c, cfg, s, s', y, ds, bs[0].hash);
    ApartRests(bs, ds);
  }

  lemma LeaderStep(c: Crypto, cfg: Config, s: NodeState, x: Hash, y: Hash, bs: seq<Block>, ds: seq<Block>)
    requires Race(c, cfg, s, x, y, 0, bs, ds) && bs != []
    ensures var s' := Next(c, cfg, s, Receive(bs[0]));
      && Extends(s, s') && s'.tail == bs[0].hash && s'.chain[s'.tail].height == s.chain[s.tail].height + 1
      && Race(c, cfg, s', x, y, 1, bs[1..], ds)
  {
    LeaderBranches(c, cfg, s, y, bs, ds);
  }

  /** The next block for `y` catches up with the tail and leaves it where it is. */
  lemma FollowerBranches(c: Crypto, cfg: Config, s: NodeState, y: Hash, bs: seq<Block>, ds: seq<Block>)
    requires Branches(c, cfg, s, y, 1, bs, ds) && ds != []
    ensures var s' := Next(c, cfg, s, Receive(ds[0]));
      && Extends(s, s') && s'.tail == s.tail && ds[0].hash !in s.chain
      && Branches(c, cfg, s', ds[0].hash, 0, bs, ds[1..])
      && MainChain(s') == MainChain(s) && Path(s', ds[0].hash) == Path(s, y) + [ds[0].hash]
  {
    var s' := Next(c, cfg, s, Receive(ds[0]));
    ForkStep(c, cfg, s, y, ds);
    ForkRest(c, cfg, s, y, ds);
    ExtendsBranch(s, s', s.tail);
    KeepsExtension(c, cfg, s, s', s.tail, bs, ds[0].hash);
    ApartRests(bs, ds);
  }

  lemma FollowerStep(c: Crypto, cfg: Config, s: NodeState, x: Hash, y: Hash, bs: seq<Block>, ds: seq<Block>)
    requires Race(c, cfg, s, x, y, 1, bs, ds) && ds != []
    ensures var s' := Next(c, cfg, s, Receive(ds[0]));
      && Extends(s, s') && s'.tail == s.tail
      && Race(c, cfg, s', x, ds[0].hash, 0, bs, ds[1..])
  {
    FollowerBranches(c, cfg, s, y, bs, ds);
    assert x in s.chain;
  }

  /** State `t` is `n` rounds after `s`, with `y` beside the tail and `ds` still to come. */
  ghost predicate RoundsLater(c: Crypto, cfg: Config, s: NodeState, t: NodeState, n: nat, x: Hash, y: Hash,
                              bs: seq<Block>, ds: seq<Block>)
  {
    && Extends(s, t) && t.chain[t.tail].height == s.chain[s.tail].height + n
    && Race(c, cfg, t, x, y, 0, bs, ds)
  }

  lemma RaceRound(c: Crypto, cfg: Config, s: NodeState, x: Hash, y: Hash, bs: seq<Block>, ds: seq<Block>)
    requires Race(c, cfg, s, x, y, 0, bs, ds) && bs != [] && ds != []
    ensures var t := Next(c, cfg, Next(c, cfg, s, Receive(bs[0])), Receive(ds[0]));
      RoundsLater(c, cfg, s, t, 1, x, ds[0].hash, bs[1..], ds[1..])
  {
    var s1 := Next(c, cfg, s, Receive(bs[0]));
    LeaderStep(c, cfg, s, x, y, bs, ds);
    FollowerStep(c, cfg, s1, x, y, bs[1..], ds);
    ExtendsTransitive(s, s1, Next(c, cfg, s1, Receive(ds[0])));
  }

  lemma RoundsAdd(c: Crypto, cfg: Config, s: NodeState, t: NodeState, u: NodeState, m: nat, n: nat, x: Hash, y: Hash,
                  z: Hash, bs: seq<Block>, ds: seq<Block>, cs: seq<Block>, es: seq<Block>)
    requires RoundsLater(c, cfg, s, t, m, x, y, bs, ds) && RoundsLater(c, cfg, t, u, n, x, z, cs, es)
    ensures RoundsLater(c, cfg, s, u, m + n, x, z, cs, es)
  {
    ExtendsTransitive(s, t, u);
  }

  ghost function TipOf(y: Hash, bs: seq<Block>): Hash {
    if bs == [] then y else bs[|bs| - 1].hash
  }

  /** The race goes on as long as there are blocks for the tail. */
  lemma {:induction false} RaceGoesOn(
      c: Crypto, cfg: Config, s: NodeState, x: Hash, y: Hash, bs: seq<Block>, ds: seq<Block>)
    requires Race(c, cfg, s, x, y, 0, bs, ds) && |bs| <= |ds|
    ensures var t := Run(c, cfg, s, Alternate(bs, ds));
      RoundsLater(c, cfg, s, t, |bs|, x, TipOf(y, ds[..|bs|]), [], ds[|bs|..])
    decreases |bs|
  {
    if bs == [] {
      assert ds[0..] == ds && ds[..0] == [];
    } else {
      var t := Next(c, cfg, Next(c, cfg, s, Receive(bs[0])), Receive(ds[0]));
      var u := Run(c, cfg, t, Alternate(bs[1..], ds[1..]));
      var z, left := TipOf(y, ds[..|bs|]), ds[|bs|..];
      RaceRound(c, cfg, s, x, y, bs, ds);
      RaceGoesOn(c, cfg, t, x, ds[0].hash, bs[1..], ds[1..]);
      RunTwo(c, cfg, s, Receive(bs[0]), Receive(ds[0]), Alternate(bs[1..], ds[1..]));
      TipOfRest(y, ds, |bs|);
      RoundsAdd(c, cfg, s, t, u, 1, |bs| - 1, x, ds[0].hash, z, bs[1..], ds[1..], [], left);
    }
  }

  lemma TipOfRest(y: Hash, ds: seq<Block>, n: nat)
    requires 0 < n <= |ds|
    ensures TipOf(ds[0].hash, ds[1..][..n - 1]) == TipOf(y, ds[..n]) == ds[n - 1].hash
    ensures ds[1..][n - 1..] == ds[n..]
  {
  }

  lemma RunTwo(c: Crypto, cfg: Config, s: NodeState, a: Step, b: Step, rest: seq<Step>)
    requires s.tail in s.chain
    ensures Run(c, cfg, s, [a, b] + rest) == Run(c, cfg, Next(c, cfg, Next(c, cfg, s, a), b), rest)
  {
    var steps := [a, b] + rest;
    assert steps[1..] == [b] + rest && steps[1..][0] == b && steps[1..][1..] == rest;
  }

  /** The first block on the tail, with another branch about to start beside it. */
  lemma RaceStarts(c: Crypto, cfg: Config, s: NodeState, bs: seq<Block>, ds: seq<Block>)
    requires Branches(c, cfg, s, s.tail, 0, bs, ds) && bs != []
    ensures var s' := Next(c, cfg, s, Receive(bs[0]));
      && Extends(s, s') && s'.tail == bs[0].hash && s'.chain[s'.tail].height == s.chain[s.tail].height + 1
      && Race(c, cfg, s', bs[0].hash, s.tail, 1, bs[1..], ds)
  {
    LeaderBranches(c, cfg, s, s.tail, bs, ds);
    assert bs[0].hash !in Path(s, s.tail);
  }

  /** Both branches have grown to length `n` from the tail of `s`. */
  lemma BothGrow(c: Crypto, cfg: Config, s: NodeState, bs: seq<Block>, ds: seq<Block>)
    requires Branches(c, cfg, s, s.tail, 0, bs, ds) && bs != [] && |bs| <= |ds|
    ensures var t, x := Run(c, cfg, s, Alternate(bs, ds)), bs[0].hash;
      Race(c, cfg, t, x, ds[|bs| - 1].hash, 0, [], ds[|bs|..]) && Buried(t, x, |bs| - 1)
  {
    var s1 := Next(c, cfg, s, Receive(bs[0]));
    var s2 := Next(c, cfg, s1, Receive(ds[0]));
    RaceStarts(c, cfg, s, bs, ds);
    FollowerStep(c, cfg, s1, bs[0].hash, s.tail, bs[1..], ds);
    RaceGoesOn(c, cfg, s2, bs[0].hash, ds[0].hash, bs[1..], ds[1..]);
    RunTwo(c, cfg, s, Receive(bs[0]), Receive(ds[0]), Alternate(bs[1..], ds[1..]));
    TipOfRest(s.tail, ds, |bs|);
  }

  lemma RaceFacts(c: Crypto, cfg: Config, t: NodeState, x: Hash, y: Hash, bs: seq<Block>, ds: seq<Block>)
    requires Race(c, cfg, t, x, y, 0, bs, ds)
    ensures Inv(c, cfg, t) && Live(cfg, t, y) && x !in Path(t, y)
  {
  }

  /** At any confirmation depth but 0 no depth makes a block final. Two valid branches from the tail, one a block
      longer, arriving in turn up to equal length n, leave the first block of the one on the longest chain at
      depth n - 1 and the tip of the other live beside it; the last block takes the longest chain away. */
  lemma BuriedBlockLeaves(c: Crypto, cfg: Config, s: NodeState, bs: seq<Block>, ds: seq<Block>)
    requires Branches(c, cfg, s, s.tail, 0, bs, ds) && bs != [] && |ds| == |bs| + 1
    ensures var t := Run(c, cfg, s, Alternate(bs, ds));
      var x, y := bs[0].hash, ds[|bs| - 1].hash;
      Inv(c, cfg, t) && Buried(t, x, |bs| - 1) && Live(cfg, t, y) && x !in Path(t, y)
    ensures var t := Run(c, cfg, Run(c, cfg, s, Alternate(bs, ds)), [Receive(ds[|bs|])]);
      TakenOver(c, cfg, t, ds[|bs|].hash, bs[0].hash)
  {
    var n := |bs|;
    var t := Run(c, cfg, s, Alternate(bs, ds));
    BothGrow(c, cfg, s, bs, ds);
    RaceFacts(c, cfg, t, bs[0].hash, ds[n - 1].hash, [], ds[n..]);
    assert ds[n..] == [ds[n]];
    LastBlockTakesOver(c, cfg, t, bs[0].hash, ds[n - 1].hash, ds[n]);
  }

  lemma LastBlockTakesOver(c: Crypto, cfg: Config, t: NodeState, x: Hash, y: Hash, last: Block)
    requires Race(c, cfg, t, x, y, 0, [], [last])
    ensures var u := Run(c, cfg, t, [Receive(last)]);
      TakenOver(c, cfg, u, last.hash, x)
  {
    var _ := LiveForkTakesOver(c, cfg, t, x, y, [last]);
    assert Receives([last]) == [Receive(last)];
  }
}

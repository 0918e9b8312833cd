/** How a server notices that its node is behind: the count of blocks without a parent, and the command to sync. */
module Alarm {
  import opened NodeSpec
  import opened Types
  import opened Verdicts
  import Node
  import Sync

  datatype Command = SYNC | RESTART

  /** A block from outside, a step of the node on another way, and the two ends of a sync. It can fail. */
  datatype Event = Incoming(block: Block) | Other(step: Step) | SyncStarts | SyncEnds(ok: bool)

  datatype ServerState = ServerState(node: NodeState, blockFailure: int, syncing: bool)

  /** The event is a block that the server counts. */
  ghost predicate Counts(c: Crypto, cfg: Config, s: ServerState, e: Event) {
    e.Incoming? && !s.syncing && LacksParent(c, cfg, s.node, e.block)
  }

  /** The event makes the server send the command to sync. */
  ghost predicate Asks(c: Crypto, cfg: Config, s: ServerState, e: Event) {
    Counts(c, cfg, s, e) && cfg.confirmation <= s.blockFailure + 1
  }

  /** A sync that fails leaves both fields as they are. */
  ghost function After(c: Crypto, cfg: Config, s: ServerState, e: Event): (s': ServerState)
    requires s.node.tail in s.node.chain
    ensures s'.node.tail in s'.node.chain
  {
    match e
    case Incoming(b) =>
      ServerState(
        NodeSpec.Next(c, cfg, s.node, Receive(b)),
        if Counts(c, cfg, s, e) then s.blockFailure + 1 else s.blockFailure,
        s.syncing)
    case Other(step) => s.(node := NodeSpec.Next(c, cfg, s.node, step))
    case SyncStarts => s.(syncing := true)
    case SyncEnds(ok) => if ok then ServerState(s.node, 0, false) else s
  }

  ghost function AfterAll(c: Crypto, cfg: Config, s: ServerState, events: seq<Event>): (s': ServerState)
    requires s.node.tail in s.node.chain
    ensures s'.node.tail in s'.node.chain
    decreases |events|
  {
    if events == [] then s else AfterAll(c, cfg, After(c, cfg, s, events[0]), events[1..])
  }

  class FullNodeServer {
    const fullNode: Node.FullNode
    const remineOnTailChange: bool
    var blockFailure: int
    var syncing: bool

    ghost predicate Valid()
      reads this, fullNode, fullNode.Repr, fullNode.blockchain
    {
      fullNode.Valid() && this !in fullNode.Repr
    }

    ghost function Contents(): ServerState
      reads this, fullNode
    {
      ServerState(fullNode.State, blockFailure, syncing)
    }

    /** A new server does not sync and has counted nothing. */
    constructor (f: Node.FullNode, remine: bool)
      requires f.Valid()
      ensures Valid() && fullNode == f && Contents() == ServerState(f.State, 0, false)
      ensures remineOnTailChange == remine
    {
      fullNode, remineOnTailChange, blockFailure, syncing := f, remine, 0, false;
    }

    /** Handle a block from outside: sent on if accepted, counted if its parent is not held, and the other parts of
        the program told to sync or to mine anew. The caller never sees an error. */
    method SetBlock(peers: seq<string>, b: Block) returns (sent: seq<string>, cmds: seq<Command>)
      requires Valid()
      modifies this`blockFailure, fullNode.Repr
      ensures Valid() && old(fullNode.State).tail in old(fullNode.State).chain
      ensures Contents() == After(fullNode.crypto, fullNode.config, old(Contents()), Incoming(b))
      ensures var asks := Asks(fullNode.crypto, fullNode.config, old(Contents()), Incoming(b));
        var restarts := remineOnTailChange && fullNode.State.tail != old(fullNode.State).tail;
        cmds == (if asks then [SYNC] else []) + if restarts then [RESTART] else []
      ensures sent == if Check(fullNode.crypto, fullNode.config, old(fullNode.State), b) == None then peers else []
    {
      ghost var lacks := LacksParent(fullNode.crypto, fullNode.config, fullNode.State, b);
      ghost var next := After(fullNode.crypto, fullNode.config, Contents(), Incoming(b));
      assert next.syncing == syncing && next.blockFailure == blockFailure + if !syncing && lacks then 1 else 0;
      ghost var asks := Asks(fullNode.crypto, fullNode.config, Contents(), Incoming(b));
      assert asks <==> !syncing && lacks && fullNode.config.confirmation <= blockFailure + 1;
      var tailChange, outOfSync, err;
      sent, tailChange, outOfSync, err := Deliver(fullNode, peers, b);
      assert blockFailure == old(blockFailure) && syncing == old(syncing) && (err.Some? && outOfSync <==> lacks);
      cmds := React(tailChange, err.Some? && outOfSync);
    }

    /** Catch up with the peers. With none there is an error, and the server is left syncing for ever. */
    method SyncToLatest(peers: seq<Node.FullNode>, ghost t: NodeState, ghost i: nat) returns (ok: bool)
      requires Valid() && forall k :: 0 <= k < |peers| ==> this !in peers[k].Repr
      requires peers != [] ==>
        && Sync.PeersLike(fullNode, peers, t)
        && Sync.Behind(fullNode.crypto, fullNode.config, fullNode.State, t, i)
      modifies this`blockFailure, this`syncing, fullNode.Repr
      ensures Valid() && ok == (peers != [])
      ensures ok ==> Sync.InSync(fullNode.State, t) && blockFailure == 0 && !syncing
      ensures !ok ==> fullNode.State == old(fullNode.State) && blockFailure == old(blockFailure) && syncing
    {
      syncing := true;
      if |peers| == 0 {
        return false;
      }
      var _ := Sync.SyncToLatest(fullNode, peers, t, i);
      syncing := false;
      blockFailure := 0;
      return true;
    }

    /** Count a block without a parent, and tell the other parts of the program. */
    method React(tailChange: bool, outOfSync: bool) returns (cmds: seq<Command>)
      requires Valid()
      modifies this`blockFailure
      ensures Valid() && fullNode.State == old(fullNode.State)
      ensures blockFailure == if outOfSync && !syncing then old(blockFailure) + 1 else old(blockFailure)
      ensures var asks := outOfSync && !syncing && fullNode.config.confirmation <= old(blockFailure) + 1;
        cmds == (if asks then [SYNC] else []) + if remineOnTailChange && tailChange then [RESTART] else []
    {
      cmds := [];
      if outOfSync && !syncing {
        blockFailure := blockFailure + 1;
        if blockFailure >= fullNode.config.confirmation {
          cmds := cmds + [SYNC];
        }
      }
      if remineOnTailChange && tailChange {
        cmds := cmds + [RESTART];
      }
    }
  }

  /** What the server learns from its node about a block. */
  method Deliver(f: Node.FullNode, peers: seq<string>, b: Block)
    returns (sent: seq<string>, tailChange: bool, outOfSync: bool, err: Option<Error>)
    requires f.Valid()
    modifies f.Repr
    ensures f.Valid() && forall o :: o in f.Repr && o !in old(f.Repr) ==> fresh(o)
    ensures old(f.State).tail in old(f.State).chain
    ensures f.State == NodeSpec.Next(f.crypto, f.config, old(f.State), Receive(b))
    ensures outOfSync <==> LacksParent(f.crypto, f.config, old(f.State), b)
    ensures tailChange <==> f.State.tail != old(f.State).tail
    ensures outOfSync ==> err.Some?
    ensures sent == if Check(f.crypto, f.config, old(f.State), b) == None then peers else []
  {
    HandleKeepsInv(f.crypto, f.config, f.State, b);
    OutOfSyncExactly(f.crypto, f.config, f.State, b);
    sent, tailChange, outOfSync, err := Sync.SetBlockInternal(f, peers, b, true);
  }

  // ----- runs -----

  /** The state before event `k` of a run. */
  ghost function Before(c: Crypto, cfg: Config, s: ServerState, events: seq<Event>, k: nat): ServerState
    requires s.node.tail in s.node.chain && k <= |events|
  {
    AfterAll(c, cfg, s, events[..k])
  }

  lemma BeforeRest(c: Crypto, cfg: Config, s: ServerState, events: seq<Event>, k: nat)
    requires s.node.tail in s.node.chain && 0 < k <= |events|
    ensures Before(c, cfg, s, events, k) == Before(c, cfg, After(c, cfg, s, events[0]), events[1..], k - 1)
  {
    assert events[..k][0] == events[0] && events[..k][1..] == events[1..][..k - 1];
  }

  ghost predicate NoSync(events: seq<Event>) {
    forall i :: 0 <= i < |events| ==> events[i].Incoming? || events[i].Other?
  }

  ghost function NodeStep(e: Event): seq<Step> {
    match e
    case Incoming(b) => [Receive(b)]
    case Other(step) => [step]
    case SyncStarts => []
    case SyncEnds(_) => []
  }

  /** The blocks from outside that lacked their parent when they came. */
  ghost function Misses(c: Crypto, cfg: Config, n: NodeState, events: seq<Event>): nat
    requires n.tail in n.chain
    decreases |events|
  {
    if events == [] then 0
    else
      var missed := events[0].Incoming? && LacksParent(c, cfg, n, events[0].block);
      (if missed then 1 else 0) + Misses(c, cfg, Run(c, cfg, n, NodeStep(events[0])), events[1..])
  }

  lemma StepOfEvent(c: Crypto, cfg: Config, s: ServerState, e: Event)
    requires s.node.tail in s.node.chain
    ensures After(c, cfg, s, e).node == Run(c, cfg, s.node, NodeStep(e))
  {
    if NodeStep(e) != [] {
      assert NodeStep(e)[1..] == [];
    }
  }

  /** Between two syncs the count is the number of blocks that lacked their parent, and no accepted block lowers it. */
  lemma {:induction false} CountIsMisses(c: Crypto, cfg: Config, s: ServerState, events: seq<Event>)
    requires s.node.tail in s.node.chain && !s.syncing && NoSync(events)
    ensures var u := AfterAll(c, cfg, s, events);
      !u.syncing && u.blockFailure == s.blockFailure + Misses(c, cfg, s.node, events)
    decreases |events|
  {
    if events == [] {
    } else {
      assert forall i :: 0 <= i < |events| - 1 ==> events[1..][i] == events[i + 1];
      StepOfEvent(c, cfg, s, events[0]);
      CountIsMisses(c, cfg, After(c, cfg, s, events[0]), events[1..]);
    }
  }

  /** Blocks of a peer that a node lacks together with their parents. */
  ghost predicate OutOfReach(s: NodeState, t: NodeState, hs: seq<Hash>) {
    forall i :: 0 <= i < |hs| ==>
      && hs[i] in t.chain && hs[i] != GENESIS_HASH && hs[i] !in s.chain
      && t.chain[hs[i]].block.prevHash !in s.chain
  }

  ghost function Sent(t: NodeState, hs: seq<Hash>): seq<Event>
    requires forall i :: 0 <= i < |hs| ==> hs[i] in t.chain
  {
    seq(|hs|, i requires 0 <= i < |hs| => Incoming(t.chain[hs[i]].block))
  }

  /** A node that is behind stays as it is while a peer's blocks come in. Each of them counts, and from the one with the
      number of the confirmation depth on each of them makes the server ask to sync. */
  lemma {:induction false} BehindServerAsks(c: Crypto, cfg: Config, s: ServerState, t: NodeState, hs: seq<Hash>, k: nat)
    requires Inv(c, cfg, s.node) && Inv(c, cfg, t) && !s.syncing && OutOfReach(s.node, t, hs) && k < |hs|
    ensures Before(c, cfg, s, Sent(t, hs), k) == s.(blockFailure := s.blockFailure + k)
    ensures Asks(c, cfg, Before(c, cfg, s, Sent(t, hs), k), Sent(t, hs)[k]) <==>
      cfg.confirmation <= s.blockFailure + k + 1
    decreases k
  {
    var events := Sent(t, hs);
    PeerBlockCounts(c, cfg, s, t, hs[0]);
    if k == 0 {
      assert events[..0] == [];
    } else {
      BeforeRest(c, cfg, s, events, k);
      assert events[1..] == Sent(t, hs[1..]);
      BehindServerAsks(c, cfg, After(c, cfg, s, events[0]), t, hs[1..], k - 1);
    }
  }

  lemma PeerBlockCounts(c: Crypto, cfg: Config, s: ServerState, t: NodeState, h: Hash)
    requires Inv(c, cfg, s.node) && Inv(c, cfg, t) && !s.syncing && OutOfReach(s.node, t, [h])
    ensures h in t.chain
    ensures var e := Incoming(t.chain[h].block);
      Counts(c, cfg, s, e) && After(c, cfg, s, e) == s.(blockFailure := s.blockFailure + 1)
  {
    assert [h][0] == h;
    var b := t.chain[h].block;
    assert Linked(t, h) && ValidAt(c, cfg, t, h);
    HeaderExactly(c, cfg, b);
    OutOfSyncExactly(c, cfg, s.node, b);
  }

  /** After a sync that did not end well the server counts nothing and never asks again, until one does. */
  lemma {:induction false} FailedSyncSilences(c: Crypto, cfg: Config, s: ServerState, events: seq<Event>, k: nat)
    requires s.node.tail in s.node.chain && s.syncing && k < |events|
    requires forall i :: 0 <= i < |events| ==> events[i] != SyncEnds(true)
    ensures var u := Before(c, cfg, s, events, k);
      u.syncing && u.blockFailure == s.blockFailure && !Asks(c, cfg, u, events[k])
    decreases k
  {
    if k == 0 {
      assert events[..0] == [];
    } else {
      BeforeRest(c, cfg, s, events, k);
      assert forall i :: 0 <= i < |events| - 1 ==> events[1..][i] == events[i + 1];
      FailedSyncSilences(c, cfg, After(c, cfg, s, events[0]), events[1..], k - 1);
    }
  }
}

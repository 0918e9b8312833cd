/** One block spreading through a network of nodes with fixed peer lists. A delivery is an atomic handling of
    the block; an accepted block is sent to every peer of the node that accepted it. */
module Gossip {
  import opened NodeSpec
  import opened Types
  import Routes

  type Id = string

  datatype Verdict = Accept | Known | Refuse

  // ----- the messages, apart from the nodes -----

  /** `pending` are the deliveries still to be made; `senders` the nodes that broadcast, in order; `refused`
      the nodes that turned the block down. */
  datatype Mail = Mail(pending: multiset<Id>, senders: seq<Id>, offered: set<Id>, refused: set<Id>, deliveries: nat)

  /** The peer lists, and the node that gets the block first. */
  datatype Links = Links(peers: map<Id, seq<Id>>, origin: Id) {
    ghost predicate Valid() {
      origin in peers && forall n, m :: n in peers && m in peers[n] ==> m in peers
    }

    ghost function Start(): Mail {
      Mail(multiset{origin}, [], {}, {}, 0)
    }

    /** A pending delivery to `n` is made and answered with `v`. */
    ghost function Deliver(mail: Mail, n: Id, v: Verdict): Mail
      requires n in peers
    {
      Mail(
        mail.pending - multiset{n} + (if v.Accept? then multiset(peers[n]) else multiset{}),
        if v.Accept? then mail.senders + [n] else mail.senders,
        mail.offered + {n},
        if v.Refuse? then mail.refused + {n} else mail.refused,
        mail.deliveries + 1)
    }

    /** The lengths of the given nodes' peer lists, added up. */
    ghost function Fanout(ns: seq<Id>): nat {
      if ns == [] then 0
      else
        var n := ns[|ns| - 1];
        Fanout(ns[..|ns| - 1]) + (if n in peers then |peers[n]| else 0)
    }

    ghost predicate NoRepeat(ns: seq<Id>) {
      forall i, j :: 0 <= i < j < |ns| ==> ns[i] != ns[j]
    }

    /** The origin and every peer of a sender was offered the block or has a delivery pending. */
    ghost predicate Reaching(mail: Mail) {
      && (origin in mail.offered || origin in mail.pending)
      && (forall n, m :: n in mail.senders && n in peers && m in peers[n] ==> m in mail.offered || m in mail.pending)
    }

    /** Senders hold the block and sent it once; whoever was offered it holds it or refused it; it reaches the
        origin and the peers of senders; and deliveries add up. */
    ghost predicate Good(holders: set<Id>, mail: Mail) {
      && (forall n :: n in mail.pending ==> n in peers)
      && (forall n :: n in mail.senders ==> n in peers && n in holders)
      && NoRepeat(mail.senders)
      && (forall n :: n in mail.offered ==> n in holders || n in mail.refused)
      && Reaching(mail)
      && mail.deliveries + |mail.pending| == 1 + Fanout(mail.senders)
    }

    lemma DeliverCounts(mail: Mail, n: Id, v: Verdict)
      requires Valid() && n in mail.pending && n in peers
      requires mail.deliveries + |mail.pending| == 1 + Fanout(mail.senders)
      ensures var mail' := Deliver(mail, n, v);
        mail'.deliveries + |mail'.pending| == 1 + Fanout(mail'.senders)
    {
      var mail' := Deliver(mail, n, v);
      assert |mail.pending - multiset{n}| == |mail.pending| - 1;
      if v.Accept? {
        assert mail'.senders[..|mail.senders|] == mail.senders;
        assert |multiset(peers[n])| == |peers[n]|;
      }
    }

    lemma DeliverReaches(mail: Mail, n: Id, v: Verdict)
      requires n in mail.pending && n in peers && Reaching(mail)
      ensures Reaching(Deliver(mail, n, v))
    {
      var mail' := Deliver(mail, n, v);
      assert forall m :: m in peers[n] ==> m in multiset(peers[n]);
      forall m | m in mail.offered || m in mail.pending
        ensures m in mail'.offered || m in mail'.pending
      {
      }
    }

    lemma DeliverGood(holders: set<Id>, after: set<Id>, mail: Mail, n: Id, v: Verdict)
      requires Valid() && Good(holders, mail) && n in mail.pending && (v.Known? <==> n in holders)
      requires after == if v.Accept? then holders + {n} else holders
      ensures Good(after, Deliver(mail, n, v))
    {
      var mail' := Deliver(mail, n, v);
      DeliverCounts(mail, n, v);
      DeliverReaches(mail, n, v);
      var reaching := Reaching(mail');
      assert reaching;
      assert v.Accept? ==> n !in mail.senders;
    }

    /** All peer lists added up. */
    ghost function AllLinks(m: map<Id, seq<Id>>): nat {
      if m == map[] then 0
      else
        var n :| n in m;
        |m[n]| + AllLinks(m - {n})
    }

    lemma {:induction false} AllLinksRemove(m: map<Id, seq<Id>>, k: Id)
      requires k in m
      ensures AllLinks(m) == |m[k]| + AllLinks(m - {k})
      decreases |m|
    {
      var n :| n in m && AllLinks(m) == |m[n]| + AllLinks(m - {n});
      if n == k {
      } else {
        AllLinksRemove(m - {n}, k);
        AllLinksRemove(m - {k}, n);
        assert (m - {n}) - {k} == (m - {k}) - {n};
      }
    }

    lemma {:induction false} FanoutBound(ns: seq<Id>, m: map<Id, seq<Id>>)
      requires NoRepeat(ns) && forall n :: n in ns ==> n in m && n in peers && m[n] == peers[n]
      ensures Fanout(ns) <= AllLinks(m)
      decreases |ns|
    {
      if ns == [] {
      } else {
        var n, rest := ns[|ns| - 1], ns[..|ns| - 1];
        AllLinksRemove(m, n);
        assert forall i :: 0 <= i < |rest| ==> rest[i] == ns[i];
        FanoutBound(rest, m - {n});
      }
    }

    /** Node `n` can be reached from the origin through nodes in `via`. */
    ghost predicate Reached(via: set<Id>, n: Id) {
      Routes.Reachable(peers, origin, via, n)
    }

    lemma ReachedOffered(holders: set<Id>, mail: Mail, via: set<Id>, n: Id)
      requires Good(holders, mail) && mail.pending == multiset{} && Reached(via, n)
      requires forall m :: m in via && m in mail.offered ==> m in mail.senders
      ensures n in mail.offered
    {
      var p :| Routes.Route(peers, origin, via, p) && p[|p| - 1] == n;
      Routes.ClosedUnderRoutes(peers, origin, via, mail.offered, p);
    }

    ghost function Senders(mail: Mail): set<Id> {
      set n | n in mail.senders
    }

    /** How far the block has spread when the nodes in `accepting` accept it: they broadcast when it reaches them. */
    ghost predicate Spread(accepting: set<Id>, mail: Mail) {
      && (forall n :: n in mail.senders ==> n in accepting && n in mail.offered)
      && (forall n :: n in mail.offered || n in mail.pending ==> Reached(accepting, n))
      && (forall n :: n in mail.offered && n in accepting ==> n in mail.senders)
    }

    lemma DeliverSpread(accepting: set<Id>, mail: Mail, n: Id, v: Verdict)
      requires n in peers && n in mail.pending && Spread(accepting, mail)
      requires v.Accept? <==> n in accepting && n !in mail.senders
      ensures Spread(accepting, Deliver(mail, n, v))
    {
      var mail' := Deliver(mail, n, v);
      forall m | m in mail'.pending
        ensures Reached(accepting, m)
      {
        if m !in mail.pending {
          assert m in multiset(peers[n]) && m in peers[n];
          Routes.NeighbourReachable(peers, origin, accepting, n, m);
        }
      }
    }
  }

  // ----- the nodes -----

  datatype Net = Net(nodes: map<Id, NodeState>, mail: Mail)

  /** A delivery, or any other step of some node. */
  datatype Event = Delivery(to: Id) | Local(node: Id, step: Step)

  datatype World = World(c: Crypto, cfg: Config, links: Links, block: Block) {
    ghost predicate NodeOk(nodes: map<Id, NodeState>, n: Id) {
      n in nodes && Inv(c, cfg, nodes[n])
    }

    ghost predicate States(nodes: map<Id, NodeState>) {
      nodes.Keys == links.peers.Keys && forall n {:trigger NodeOk(nodes, n)} :: n in nodes ==> NodeOk(nodes, n)
    }

    ghost function Holders(nodes: map<Id, NodeState>): set<Id> {
      set n | n in nodes && block.hash in nodes[n].chain
    }

    /** How a node in state `s` answers the block. */
    ghost function Answer(s: NodeState): Verdict
      requires s.tail in s.chain
    {
      if block.hash in s.chain then Known
      else if Check(c, cfg, s, block) == None then Accept
      else Refuse
    }

    lemma AnswerFacts(s: NodeState)
      requires Inv(c, cfg, s)
      ensures var s' := Handle(c, cfg, s, block).0;
        && Inv(c, cfg, s')
        && (Answer(s).Known? <==> block.hash in s.chain)
        && (Answer(s).Accept? <==> Check(c, cfg, s, block) == None)
        && (block.hash in s'.chain <==> block.hash in s.chain || Answer(s).Accept?)
        && (!Answer(s).Accept? ==> s' == s)
    {
      HandleKeepsInv(c, cfg, s, block);
    }

    /** An event that cannot happen changes nothing. */
    ghost function Next(net: Net, e: Event): Net {
      match e
      case Delivery(n) =>
        if n !in net.mail.pending || n !in links.peers || n !in net.nodes then net
        else if net.nodes[n].tail !in net.nodes[n].chain then net
        else Net(
            net.nodes[n := Handle(c, cfg, net.nodes[n], block).0],
            links.Deliver(net.mail, n, Answer(net.nodes[n])))
      case Local(n, step) =>
        if n !in net.nodes || net.nodes[n].tail !in net.nodes[n].chain then net
        else net.(nodes := net.nodes[n := NodeSpec.Next(c, cfg, net.nodes[n], step)])
    }

    ghost function Run(net: Net, events: seq<Event>): Net
      decreases |events|
    {
      if events == [] then net else Run(Next(net, events[0]), events[1..])
    }

    ghost predicate Good(net: Net) {
      States(net.nodes) && links.Good(Holders(net.nodes), net.mail)
    }

    lemma UpdateStates(nodes: map<Id, NodeState>, n: Id, s: NodeState)
      requires States(nodes) && n in nodes && Inv(c, cfg, s)
      ensures States(nodes[n := s])
    {
      forall m | m in nodes
        ensures NodeOk(nodes[n := s], m)
      {
        assert NodeOk(nodes, m);
      }
    }

    lemma HoldersUpdate(nodes: map<Id, NodeState>, n: Id, s: NodeState, accepted: bool)
      requires n in nodes
      requires block.hash in s.chain <==> block.hash in nodes[n].chain || accepted
      ensures Holders(nodes[n := s]) == if accepted then Holders(nodes) + {n} else Holders(nodes)
    {
    }

    /** A delivery answered `v` that takes node `n` to state `s'`. */
    lemma AnsweredGood(net: Net, n: Id, s': NodeState, v: Verdict)
      requires links.Valid() && Good(net) && n in net.mail.pending && n in net.nodes && Inv(c, cfg, s')
      requires v.Known? <==> block.hash in net.nodes[n].chain
      requires block.hash in s'.chain <==> block.hash in net.nodes[n].chain || v.Accept?
      ensures n in links.peers && Good(Net(net.nodes[n := s'], links.Deliver(net.mail, n, v)))
    {
      UpdateStates(net.nodes, n, s');
      HoldersUpdate(net.nodes, n, s', v.Accept?);
      links.DeliverGood(Holders(net.nodes), Holders(net.nodes[n := s']), net.mail, n, v);
    }

    lemma DeliveryGood(net: Net, n: Id)
      requires links.Valid() && Good(net)
      ensures Good(Next(net, Delivery(n)))
    {
      if n in net.mail.pending {
        assert NodeOk(net.nodes, n);
        AnswerFacts(net.nodes[n]);
        AnsweredGood(net, n, Handle(c, cfg, net.nodes[n], block).0, Answer(net.nodes[n]));
      }
    }

    lemma LocalGood(net: Net, n: Id, step: Step)
      requires Good(net)
      ensures Good(Next(net, Local(n, step)))
    {
      if n in net.nodes {
        var s := net.nodes[n];
        assert NodeOk(net.nodes, n);
        NextKeepsInv(c, cfg, s, step);
        UpdateStates(net.nodes, n, NodeSpec.Next(c, cfg, s, step));
        assert Holders(net.nodes) <= Holders(Next(net, Local(n, step)).nodes);
      }
    }

    lemma NextGood(net: Net, e: Event)
      requires links.Valid() && Good(net)
      ensures Good(Next(net, e))
    {
      match e
      case Delivery(n) => DeliveryGood(net, n);
      case Local(n, step) => LocalGood(net, n, step);
    }

    lemma {:induction false} RunGood(net: Net, events: seq<Event>)
      requires links.Valid() && Good(net)
      ensures Good(Run(net, events))
      decreases |events|
    {
      if events == [] {
      } else {
        NextGood(net, events[0]);
        RunGood(Next(net, events[0]), events[1..]);
      }
    }

    lemma StartGood(nodes: map<Id, NodeState>)
      requires links.Valid() && States(nodes)
      ensures Good(Net(nodes, links.Start()))
    {
      assert |multiset{links.origin}| == 1;
    }

    /** The network after some events, from any states of the nodes. */
    ghost function After(nodes: map<Id, NodeState>, events: seq<Event>): Net {
      Run(Net(nodes, links.Start()), events)
    }

    /** In every run, with any other steps of the nodes in between, no node broadcasts the block twice, and
        there are at most one delivery more than there are peer links. */
    lemma BroadcastBounds(nodes: map<Id, NodeState>, events: seq<Event>)
      requires links.Valid() && States(nodes)
      ensures var mail := After(nodes, events).mail;
        && (forall i, j :: 0 <= i < j < |mail.senders| ==> mail.senders[i] != mail.senders[j])
        && mail.deliveries + |mail.pending| <= 1 + links.AllLinks(links.peers)
    {
      StartGood(nodes);
      RunGood(Net(nodes, links.Start()), events);
      links.FanoutBound(After(nodes, events).mail.senders, links.peers);
    }

    /** When nothing is pending, every node on a route of broadcasting nodes from the origin was offered the
        block, and holds it or refused it. */
    lemma QuiescentCoverage(nodes: map<Id, NodeState>, events: seq<Event>, n: Id)
      requires links.Valid() && States(nodes)
      requires After(nodes, events).mail.pending == multiset{}
      requires links.Reached(links.Senders(After(nodes, events).mail), n)
      ensures var net := After(nodes, events);
        n in net.mail.offered && (n in Holders(net.nodes) || n in net.mail.refused)
    {
      StartGood(nodes);
      RunGood(Net(nodes, links.Start()), events);
      var mail := After(nodes, events).mail;
      links.ReachedOffered(Holders(After(nodes, events).nodes), mail, links.Senders(mail), n);
    }

    // ----- the block alone -----

    ghost predicate Accepts(s: NodeState) {
      s.tail in s.chain && Check(c, cfg, s, block) == None
    }

    /** The nodes that would accept the block as they stand. */
    ghost function Accepting(nodes: map<Id, NodeState>): set<Id> {
      set n | n in nodes && Accepts(nodes[n])
    }

    ghost predicate OnlyDeliveries(events: seq<Event>) {
      forall i :: 0 <= i < |events| ==> events[i].Delivery?
    }

    ghost predicate UpdatedAt(nodes: map<Id, NodeState>, net: Net, n: Id) {
      && n in nodes && n in net.nodes && nodes[n].tail in nodes[n].chain
      && net.nodes[n] == if n in net.mail.senders then Handle(c, cfg, nodes[n], block).0 else nodes[n]
    }

    /** Nodes that broadcast have handled the block once; all others are as they were. */
    ghost predicate Spread(nodes: map<Id, NodeState>, net: Net) {
      && (forall n {:trigger UpdatedAt(nodes, net, n)} :: n in nodes ==> UpdatedAt(nodes, net, n))
      && links.Spread(Accepting(nodes), net.mail)
    }

    /** A delivery of the block to node `n` in a network that has seen nothing else. */
    lemma AnswerSpread(nodes: map<Id, NodeState>, net: Net, n: Id)
      requires States(nodes) && States(net.nodes) && n in nodes && UpdatedAt(nodes, net, n)
      ensures NodeOk(net.nodes, n)
      ensures var v, s' := Answer(net.nodes[n]), Handle(c, cfg, net.nodes[n], block).0;
        && (v.Accept? <==> n in Accepting(nodes) && n !in net.mail.senders)
        && s' == if n in net.mail.senders || v.Accept? then Handle(c, cfg, nodes[n], block).0 else nodes[n]
    {
      assert NodeOk(nodes, n) && NodeOk(net.nodes, n);
      AnswerFacts(nodes[n]);
      AnswerFacts(net.nodes[n]);
    }

    lemma DeliverySpread(nodes: map<Id, NodeState>, net: Net, n: Id)
      requires links.Valid() && States(nodes) && Good(net) && Spread(nodes, net)
      ensures Spread(nodes, Next(net, Delivery(n)))
    {
      if n in net.mail.pending {
        assert UpdatedAt(nodes, net, n);
        AnswerSpread(nodes, net, n);
        links.DeliverSpread(Accepting(nodes), net.mail, n, Answer(net.nodes[n]));
        var net' := Next(net, Delivery(n));
        forall m | m in nodes
          ensures UpdatedAt(nodes, net', m)
        {
          assert UpdatedAt(nodes, net, m);
        }
      }
    }

    lemma {:induction false} RunSpread(nodes: map<Id, NodeState>, net: Net, events: seq<Event>)
      requires links.Valid() && States(nodes) && Good(net) && Spread(nodes, net) && OnlyDeliveries(events)
      ensures Good(Run(net, events)) && Spread(nodes, Run(net, events))
      decreases |events|
    {
      if events == [] {
      } else {
        NextGood(net, events[0]);
        DeliverySpread(nodes, net, events[0].to);
        assert forall i :: 0 <= i < |events| - 1 ==> events[1..][i] == events[i + 1];
        RunSpread(nodes, Next(net, events[0]), events[1..]);
      }
    }

    lemma StartSpread(nodes: map<Id, NodeState>)
      requires States(nodes)
      ensures Spread(nodes, Net(nodes, links.Start()))
    {
      Routes.StartReachable(links.peers, links.origin, Accepting(nodes));
      forall n | n in nodes
        ensures UpdatedAt(nodes, Net(nodes, links.Start()), n)
      {
        assert NodeOk(nodes, n);
      }
    }

    /** With nothing else going on, once no delivery is pending the nodes that were offered the block are
        exactly those reachable from the origin through accepting nodes, and the nodes that hold it are exactly
        those that held it before and the accepting ones among the reached. */
    lemma GossipExactly(nodes: map<Id, NodeState>, events: seq<Event>, n: Id)
      requires links.Valid() && States(nodes) && OnlyDeliveries(events) && n in nodes
      requires After(nodes, events).mail.pending == multiset{}
      ensures var net := After(nodes, events);
        var reached := links.Reached(Accepting(nodes), n);
        && (n in net.mail.offered <==> reached)
        && (n in Holders(net.nodes) <==> n in Holders(nodes) || (n in Accepting(nodes) && reached))
    {
      var net := After(nodes, events);
      StartGood(nodes);
      StartSpread(nodes);
      RunSpread(nodes, Net(nodes, links.Start()), events);
      if links.Reached(Accepting(nodes), n) {
        links.ReachedOffered(Holders(net.nodes), net.mail, Accepting(nodes), n);
      }
      assert NodeOk(nodes, n) && UpdatedAt(nodes, net, n);
      AnswerFacts(nodes[n]);
    }
  }
}

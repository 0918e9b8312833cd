/** The network prober: a breadth-first search whose queue may hold duplicates, building a graph of nodes. */
module Probe {
  import Routes

  datatype Address = Address(ip: string, port: string)

  /** Addresses with lists of addresses: the nodes that answer, each with the list it introduces, or the nodes
      of a graph, each with its peers. */
  type Network = map<Address, seq<Address>>

  class Node {
    const EndPoint: string
    var Peers: seq<Node>
    ghost const Addr: Address

    constructor (ip: string, port: string)
      ensures EndPoint == ip + ":" + port && Peers == [] && Addr == Address(ip, port)
    {
      EndPoint := ip + ":" + port;
      Peers := [];
      Addr := Address(ip, port);
    }

    method AddPeer(peer: Node)
      modifies this
      ensures Peers == old(Peers) + [peer]
    {
      Peers := Peers + [peer];
    }
  }

  class Graph {
    var Nodes: map<Address, Node>
    var Root: Node?
    /** The graph as a value: the addresses of the peers of every node, in order. */
    ghost var Adj: Network
    /** The address of the root. */
    ghost var Start: Address
    ghost var Repr: set<object>

    /** The node of `a` is labelled with `a`, and its peers are the nodes of `Adj[a]`. */
    ghost predicate NodeOk(a: Address)
      requires a in Nodes && Nodes[a] in Repr
      reads this, Repr
    {
      var n := Nodes[a];
      && n.Addr == a && n.EndPoint == a.ip + ":" + a.port
      && a in Adj && |n.Peers| == |Adj[a]|
      && forall j :: 0 <= j < |Adj[a]| ==> Adj[a][j] in Nodes && n.Peers[j] == Nodes[Adj[a][j]]
    }

    ghost predicate Valid()
      reads this, Repr
      ensures Valid() ==> this in Repr
    {
      && this in Repr
      && Adj.Keys == Nodes.Keys
      && (forall a :: a in Nodes ==> Nodes[a] in Repr)
      && (forall a {:trigger NodeOk(a)} :: a in Nodes ==> NodeOk(a))
      && (if Nodes == map[] then Root == null else Start in Nodes && Root == Nodes[Start])
    }

    constructor ()
      ensures Valid() && fresh(Repr) && Nodes == map[] && Adj == map[] && Root == null
    {
      Nodes, Root := map[], null;
      Adj, Repr := map[], {this};
    }

    /** The node of an address, made on first use; the first node made becomes the root. */
    method GetNode(addr: Address) returns (n: Node)
      requires Valid()
      modifies this
      ensures Valid() && (forall o :: o in Repr && o !in old(Repr) ==> fresh(o)) && old(Repr) <= Repr
      ensures addr in Nodes && n == Nodes[addr]
      ensures Adj == if addr in old(Adj) then old(Adj) else old(Adj)[addr := []]
      ensures Start == if old(Adj) == map[] then addr else old(Start)
    {
      if addr !in Nodes {
        var node := new Node(addr.ip, addr.port);
        Nodes := Nodes[addr := node];
        Adj, Repr := Adj[addr := []], Repr + {node};
      }
      if Root == null {
        Root, Start := Nodes[addr], addr;
      }
      n := Nodes[addr];
      forall a | a in Nodes
        ensures Nodes[a] in Repr && NodeOk(a)
      {
        assert a in old(Nodes) ==> old(NodeOk(a));
      }
    }

    /** Append the node of `b` to the peers of the node of `a`. */
    method AddPeer(a: Address, b: Address)
      requires Valid() && a in Nodes && b in Nodes
      modifies Repr
      ensures Valid() && Repr == old(Repr) && Nodes == old(Nodes) && Start == old(Start)
      ensures a in old(Adj) && Adj == old(Adj)[a := old(Adj)[a] + [b]]
    {
      assert NodeOk(a);
      Nodes[a].AddPeer(Nodes[b]);
      Adj := Adj[a := Adj[a] + [b]];
      forall x | x in Nodes
        ensures NodeOk(x)
      {
        assert old(NodeOk(x));
      }
    }
  }

  /** Introductions lead from `self` to `a`, every node before the last answering. */
  ghost predicate Reachable(net: Network, self: Address, a: Address) {
    Routes.Reachable(net, self, net.Keys, a)
  }

  /** What a node introduces if it has been asked and answered. */
  ghost function Introduced(net: Network, asked: set<Address>, a: Address): seq<Address> {
    if a in asked && a in net then net[a] else []
  }

  /** The graph after asking the addresses in `asked`: it has those that answered and those they introduced,
      with the introductions as peers. */
  ghost predicate Built(net: Network, self: Address, adj: Network, asked: set<Address>) {
    && (forall a :: a in adj ==> adj[a] == Introduced(net, asked, a) && Reachable(net, self, a))
    && (forall a :: a in asked && a in net ==> a in adj)
    && (adj != map[] ==> self in adj && self in net)
  }

  /** The graph after one more address was asked and answered. */
  ghost predicate Extended(adj: Network, adj': Network, addr: Address, peers: seq<Address>) {
    && (forall a :: a in adj' <==> a in adj || a == addr || a in peers)
    && (forall a :: a in adj' && a != addr ==> adj'[a] == if a in adj then adj[a] else [])
    && addr in adj' && adj'[addr] == (if addr in adj then adj[addr] else []) + peers
  }

  lemma ExtendedOnce(adj0: Network, adj: Network, adj': Network,
                     addr: Address, peers: seq<Address>, p: Address)
    requires Extended(adj0, adj, addr, peers)
    requires adj' == if p in adj then adj else adj[p := []]
    ensures addr in adj' && Extended(adj0, adj'[addr := adj'[addr] + [p]], addr, peers + [p])
  {
    assert forall a :: a in peers + [p] <==> a in peers || a == p;
  }

  ghost function Universe(net: Network, self: Address): set<Address> {
    {self} + net.Keys + set a, i | a in net && 0 <= i < |net[a]| :: net[a][i]
  }

  lemma IntroducedInUniverse(net: Network, self: Address, a: Address, b: Address)
    requires a in net && b in net[a]
    ensures b in Universe(net, self)
  {
  }

  lemma ExtendedBuilt(net: Network, self: Address, adj: Network, adj': Network,
                      asked: set<Address>, addr: Address)
    requires Built(net, self, adj, asked) && addr in net && addr !in asked && Extended(adj, adj', addr, net[addr])
    requires Reachable(net, self, addr) && (adj == map[] ==> addr == self)
    ensures Built(net, self, adj', asked + {addr})
  {
    forall a | a in adj'
      ensures Reachable(net, self, a)
    {
      if a !in adj && a != addr {
        Routes.NeighbourReachable(net, self, net.Keys, addr, a);
      }
    }
  }

  lemma SilentBuilt(net: Network, self: Address, adj: Network, asked: set<Address>, addr: Address)
    requires Built(net, self, adj, asked) && addr !in net
    ensures Built(net, self, adj, asked + {addr})
  {
  }

  /** The queue and the seen set: all reachable, and closed under introductions. */
  ghost predicate Searching(net: Network, self: Address, seen: set<Address>, todo: seq<Address>) {
    && (self in seen || self in todo)
    && (forall a :: a in seen || a in todo ==> Reachable(net, self, a) && a in Universe(net, self))
    && (forall a, b :: a in seen && a in net && b in net[a] ==> b in seen || b in todo)
    && (self !in seen ==> seen == {} && todo == [self])
  }

  /** The address at the front is dropped: it was seen before, or does not answer. */
  lemma SearchSkip(net: Network, self: Address, seen: set<Address>, todo: seq<Address>)
    requires Searching(net, self, seen, todo) && todo != []
    ensures var addr := todo[0];
      && (addr in seen ==> Searching(net, self, seen, todo[1..]))
      && (addr !in net ==> Searching(net, self, seen + {addr}, todo[1..]))
  {
    assert todo == [todo[0]] + todo[1..];
  }

  /** The address at the front answers, and what it introduces is queued. */
  lemma SearchAnswered(net: Network, self: Address, seen: set<Address>, todo: seq<Address>)
    requires Searching(net, self, seen, todo) && todo != [] && todo[0] !in seen && todo[0] in net
    ensures Searching(net, self, seen + {todo[0]}, todo[1..] + net[todo[0]])
  {
    var addr, rest := todo[0], todo[1..];
    assert todo == [addr] + rest;
    forall b | b in net[addr]
      ensures Reachable(net, self, b) && b in Universe(net, self)
    {
      Routes.NeighbourReachable(net, self, net.Keys, addr, b);
      IntroducedInUniverse(net, self, addr, b);
    }
    var next := rest + net[addr];
    assert forall b :: b in next <==> b in rest || b in net[addr];
  }

  lemma SearchDone(net: Network, self: Address, adj: Network, seen: set<Address>)
    requires Searching(net, self, seen, []) && Built(net, self, adj, seen) && self in net
    requires forall a, b :: a in adj && b in adj[a] ==> b in adj
    ensures forall a :: a in adj <==> Reachable(net, self, a)
    ensures forall a :: a in adj ==> adj[a] == if a in net then net[a] else []
  {
    forall a | Reachable(net, self, a)
      ensures a in adj && a in seen
    {
      var p :| Routes.Route(net, self, net.Keys, p) && p[|p| - 1] == a;
      Routes.ClosedUnderRoutes(net, self, net.Keys, adj.Keys * seen, p);
    }
  }

  /** Add the node of an address that answers, and its introductions. */
  method Ask(g: Graph, net: Network, self: Address, addr: Address, ghost asked: set<Address>, ghost queue: seq<Address>)
    requires g.Valid() && Built(net, self, g.Adj, asked) && (g.Adj != map[] ==> g.Start == self)
    requires Searching(net, self, asked, queue) && queue != [] && queue[0] == addr
    requires addr in net && addr !in asked
    modifies g.Repr
    ensures g.Valid() && forall o :: o in g.Repr && o !in old(g.Repr) ==> fresh(o)
    ensures Built(net, self, g.Adj, asked + {addr}) && (g.Adj != map[] ==> g.Start == self)
    ensures Searching(net, self, asked + {addr}, queue[1..] + net[addr])
  {
    SearchAnswered(net, self, asked, queue);
    ghost var adj := g.Adj;
    AddNode(g, addr, net[addr]);
    ExtendedBuilt(net, self, adj, g.Adj, asked, addr);
  }

  /** The search ends. If `self` answers, the graph has exactly the addresses reachable through answering
      nodes, one node each, and the peers of a node are exactly what it introduced, once and in order. */
  method ProbNetwork(net: Network, self: Address) returns (g: Graph)
    ensures fresh(g) && g.Valid()
    ensures self in net ==> forall a :: a in g.Nodes <==> Reachable(net, self, a)
    ensures forall a :: a in g.Adj ==> g.Adj[a] == if a in net then net[a] else []
    ensures self in net ==> self in g.Nodes && g.Root == g.Nodes[self]
    ensures self !in net ==> g.Nodes == map[] && g.Root == null
  {
    var seen: set<Address> := {};
    g := new Graph();
    var todo := [self];
    Routes.StartReachable(net, self, net.Keys);
    while |todo| != 0
      invariant g.Valid() && fresh(g.Repr)
      invariant Built(net, self, g.Adj, seen) && Searching(net, self, seen, todo)
      invariant g.Adj != map[] ==> g.Start == self
      decreases Universe(net, self) - seen, |todo|
    {
      var addr := todo[0];
      ghost var queue := todo;
      todo := todo[1..];
      if addr in seen {
        SearchSkip(net, self, seen, queue);
        continue;
      }
      ghost var asked := seen;
      seen := seen + {addr};
      if addr !in net {
        SearchSkip(net, self, asked, queue);
        SilentBuilt(net, self, g.Adj, asked, addr);
        continue;
      }
      Ask(g, net, self, addr, asked, queue);
      todo := todo + net[addr];
    }
    if self in net {
      assert forall a :: a in g.Adj ==> g.NodeOk(a);
      SearchDone(net, self, g.Adj, seen);
    }
  }

  lemma TakeSnoc(peers: seq<Address>, i: nat)
    requires i < |peers|
    ensures peers[..i + 1] == peers[..i] + [peers[i]]
  {
  }

  /** Get the node of an address that answered, and add the nodes of all it introduced as peers. */
  method AddNode(g: Graph, addr: Address, peers: seq<Address>)
    requires g.Valid()
    modifies g.Repr
    ensures g.Valid() && forall o :: o in g.Repr && o !in old(g.Repr) ==> fresh(o)
    ensures Extended(old(g.Adj), g.Adj, addr, peers)
    ensures g.Start == if old(g.Adj) == map[] then addr else old(g.Start)
  {
    var node := g.GetNode(addr);
    assert peers[..0] == [];
    for i := 0 to |peers|
      invariant g.Valid() && old(g.Repr) <= g.Repr && forall o :: o in g.Repr && o !in old(g.Repr) ==> fresh(o)
      invariant Extended(old(g.Adj), g.Adj, addr, peers[..i])
      invariant g.Start == if old(g.Adj) == map[] then addr else old(g.Start)
    {
      ghost var adj, done := g.Adj, peers[..i];
      TakeSnoc(peers, i);
      var peer := g.GetNode(peers[i]);
      ExtendedOnce(old(g.Adj), adj, g.Adj, addr, done, peers[i]);
      g.AddPeer(addr, peers[i]);
    }
    assert peers[..|peers|] == peers;
  }
}

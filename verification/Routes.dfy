/** Routes over lists of neighbours, with the nodes they may pass through. */
module Routes {
  /** Links followed from `start`, every node before the last in `via`. */
  ghost predicate Route<N(!new)>(links: map<N, seq<N>>, start: N, via: set<N>, p: seq<N>) {
    && p != [] && p[0] == start
    && forall i :: 0 <= i < |p| - 1 ==> p[i] in via && p[i] in links && p[i + 1] in links[p[i]]
  }

  ghost predicate Reachable<N(!new)>(links: map<N, seq<N>>, start: N, via: set<N>, n: N) {
    exists p :: Route(links, start, via, p) && p[|p| - 1] == n
  }

  lemma StartReachable<N(!new)>(links: map<N, seq<N>>, start: N, via: set<N>)
    ensures Reachable(links, start, via, start)
  {
    var p := [start];
    assert Route(links, start, via, p) && p[|p| - 1] == start;
  }

  lemma NeighbourReachable<N(!new)>(links: map<N, seq<N>>, start: N, via: set<N>, n: N, m: N)
    requires Reachable(links, start, via, n) && n in via && n in links && m in links[n]
    ensures Reachable(links, start, via, m)
  {
    var p :| Route(links, start, via, p) && p[|p| - 1] == n;
    var q := p + [m];
    assert Route(links, start, via, q) && q[|q| - 1] == m;
  }

  /** A set that has `start` and is closed under links has everything reachable. */
  lemma {:induction false} ClosedUnderRoutes<N(!new)>(
      links: map<N, seq<N>>, start: N, via: set<N>, all: set<N>, p: seq<N>)
    requires start in all && forall n, m :: n in all && n in via && n in links && m in links[n] ==> m in all
    requires Route(links, start, via, p)
    ensures p[|p| - 1] in all
    decreases |p|
  {
    if |p| == 1 {
    } else {
      var q := p[..|p| - 1];
      assert Route(links, start, via, q);
      ClosedUnderRoutes(links, start, via, all, q);
      assert p[|p| - 2] == q[|q| - 1];
    }
  }
}

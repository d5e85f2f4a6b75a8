/** Wait-for graphs: edges, cycles, and why a graph that can be numbered
    backwards along its edges has none. */
module WaitGraph {

  /** Maps a waiting process to the processes it waits for. */
  type Graph = map<int, set<int>>

  predicate Edge(g: Graph, u: int, v: int) {
    u in g && v in g[u]
  }

  predicate IsPath(g: Graph, p: seq<int>) {
    forall i :: 0 <= i < |p| - 1 ==> Edge(g, p[i], p[i + 1])
  }

  predicate IsCycle(g: Graph, c: seq<int>) {
    c != [] && IsPath(g, c) && Edge(g, c[|c| - 1], c[0])
  }

  predicate Distinct(q: seq<int>) {
    forall i, j :: 0 <= i < j < |q| ==> q[i] != q[j]
  }

  /** A cycle of at least two processes, none of them twice. */
  predicate SimpleCycle(g: Graph, c: seq<int>) {
    IsCycle(g, c) && Distinct(c) && |c| >= 2
  }

  ghost predicate Cyclic(g: Graph) {
    exists c :: IsCycle(g, c)
  }

  predicate NoSelfLoops(g: Graph) {
    forall u :: u in g ==> u !in g[u]
  }

  function NodeSet(c: seq<int>): set<int> {
    set x | x in c
  }

  /** The node after the one at index `i`, going round the cycle `c`. */
  function After(c: seq<int>, i: nat): int
    requires i < |c|
  {
    if i + 1 < |c| then c[i + 1] else c[0]
  }

  /** The edge that closes the list `l` lies on the cycle `c`. */
  predicate ClosesOn(l: seq<int>, c: seq<int>) {
    l != [] && exists i :: 0 <= i < |c| && c[i] == l[|l| - 1] && After(c, i) == l[0]
  }

  /** Every cycle of `g` contains the closing edge of a reported list. */
  ghost predicate CoversCycles(g: Graph, cycles: seq<seq<int>>) {
    forall c :: IsCycle(g, c) ==> exists k :: 0 <= k < |cycles| && ClosesOn(cycles[k], c)
  }

  /** What a correct report of the cycles of `g` is: simple cycles with different
      nodes, and enough of them to break every cycle at a reported edge. */
  ghost predicate ExactReport(g: Graph, cycles: seq<seq<int>>) {
    && CoversCycles(g, cycles)
    && (forall i :: 0 <= i < |cycles| ==> SimpleCycle(g, cycles[i]))
    && (forall i, j :: 0 <= i < j < |cycles| ==> NodeSet(cycles[i]) != NodeSet(cycles[j]))
  }

  /** In particular a list is reported exactly when there is a cycle. */
  lemma ReportedIffCyclic(g: Graph, cycles: seq<seq<int>>)
    requires ExactReport(g, cycles)
    ensures cycles != [] <==> Cyclic(g)
  {
    if cycles != [] { assert IsCycle(g, cycles[0]); }
  }

  /** One list covers only cycles that meet: disjoint cycles are covered by
      different lists. */
  lemma CoveredTogetherMeet(c: seq<int>, c': seq<int>, l: seq<int>)
    requires ClosesOn(l, c) && ClosesOn(l, c')
    ensures !(NodeSet(c) !! NodeSet(c'))
  {
    assert l[0] in NodeSet(c) && l[0] in NodeSet(c');
  }

  /** A cycle that has no process in common with a different one is itself
      reported, up to where it starts. */
  lemma LoneCycleIsReported(g: Graph, cycles: seq<seq<int>>, c: seq<int>) returns (k: nat)
    requires ExactReport(g, cycles) && IsCycle(g, c)
    requires forall o :: IsCycle(g, o) && !(NodeSet(o) !! NodeSet(c)) ==> NodeSet(o) == NodeSet(c)
    ensures k < |cycles| && NodeSet(cycles[k]) == NodeSet(c)
  {
    k :| 0 <= k < |cycles| && ClosesOn(cycles[k], c);
    assert SimpleCycle(g, cycles[k]);
    assert cycles[k][0] in NodeSet(cycles[k]) && cycles[k][0] in NodeSet(c);
  }

  /** The nodes an edge can lead to or start from. */
  ghost function Nodes(g: Graph): set<int> {
    g.Keys + (set u, v | u in g && v in g[u] :: v)
  }

  lemma SuccessorsAreNodes(g: Graph)
    ensures forall u :: u in g ==> g[u] <= Nodes(g)
  {
    forall u | u in g ensures g[u] <= Nodes(g) {
      forall v | v in g[u] ensures v in Nodes(g) { }
    }
  }

  // ---------- numbering a graph ----------

  /** Every edge that leaves a listed node leads to a node listed earlier. */
  predicate BackwardsNumbered(g: Graph, order: seq<int>) {
    forall i :: 0 <= i < |order| && order[i] in g ==> forall v :: v in g[order[i]] ==> v in order[..i]
  }

  lemma NumberingGrows(g: Graph, order: seq<int>, node: int)
    requires BackwardsNumbered(g, order) && forall v :: Edge(g, node, v) ==> v in order
    ensures BackwardsNumbered(g, order + [node])
  {
    var all := order + [node];
    forall i, v | 0 <= i < |all| && all[i] in g && v in g[all[i]] ensures v in all[..i] {
      if i < |order| {
        assert all[..i] == order[..i];
      } else {
        assert all[..i] == order && Edge(g, node, v);
      }
    }
  }

  function First(q: seq<int>, x: int): nat
    requires x in q
    ensures First(q, x) < |q| && q[First(q, x)] == x && x !in q[..First(q, x)]
  {
    if q[0] == x then 0
    else
      assert x in q[1..];
      var n := 1 + First(q[1..], x);
      assert q[..n] == [q[0]] + q[1..][..n - 1];
      n
  }

  lemma {:induction false} PathDescends(g: Graph, order: seq<int>, p: seq<int>, j: nat)
    requires BackwardsNumbered(g, order) && IsPath(g, p) && j < |p| && p[0] in order
    ensures p[j] in order && First(order, p[j]) <= First(order, p[0])
  {
    if j > 0 {
      PathDescends(g, order, p, j - 1);
      assert Edge(g, p[j - 1], p[j - 1 + 1]);
    }
  }

  // ---------- a graph without the closing edges of some lists ----------

  predicate Closed(cycles: seq<seq<int>>, u: int, v: int) {
    exists k :: 0 <= k < |cycles| && cycles[k] != [] && cycles[k][|cycles[k]| - 1] == u && cycles[k][0] == v
  }

  function Opened(g: Graph, cycles: seq<seq<int>>): Graph {
    map u | u in g :: set v | v in g[u] && !Closed(cycles, u, v)
  }

  lemma OpenedCycle(g: Graph, cycles: seq<seq<int>>, c: seq<int>)
    requires IsCycle(g, c) && forall i :: 0 <= i < |c| ==> !Closed(cycles, c[i], After(c, i))
    ensures IsCycle(Opened(g, cycles), c)
  {
    forall i | 0 <= i < |c| ensures Edge(Opened(g, cycles), c[i], After(c, i)) {
      assert i + 1 < |c| ==> Edge(g, c[i], c[i + 1]);
    }
    forall i | 0 <= i < |c| - 1 ensures Edge(Opened(g, cycles), c[i], c[i + 1]) {
      assert After(c, i) == c[i + 1];
    }
    assert After(c, |c| - 1) == c[0];
  }

  lemma AcyclicOpenedCovers(g: Graph, cycles: seq<seq<int>>)
    requires !Cyclic(Opened(g, cycles))
    ensures CoversCycles(g, cycles)
  {
    forall c | IsCycle(g, c) ensures exists k :: 0 <= k < |cycles| && ClosesOn(cycles[k], c) {
      if forall i :: 0 <= i < |c| ==> !Closed(cycles, c[i], After(c, i)) {
        OpenedCycle(g, cycles, c);
      }
    }
  }

  /** Reporting one more list only takes edges away. */
  lemma OpeningKeepsNumbering(g: Graph, cycles: seq<seq<int>>, c: seq<int>, order: seq<int>)
    requires BackwardsNumbered(Opened(g, cycles), order)
    ensures BackwardsNumbered(Opened(g, cycles + [c]), order)
    ensures forall u, v :: Closed(cycles, u, v) ==> Closed(cycles + [c], u, v)
  {
    forall u, v | Closed(cycles, u, v) ensures Closed(cycles + [c], u, v) {
      var k :| 0 <= k < |cycles| && cycles[k] != [] && cycles[k][|cycles[k]| - 1] == u && cycles[k][0] == v;
      assert (cycles + [c])[k] == cycles[k];
    }
  }

  // ---------- lists that follow one order ----------

  predicate Follows(order: seq<int>, l: seq<int>) {
    && (forall x :: x in l ==> x in order)
    && (forall i, j :: 0 <= i < j < |l| ==> First(order, l[i]) < First(order, l[j]))
  }

  lemma {:induction false} FirstStays(order: seq<int>, x: int, more: int)
    requires x in order
    ensures First(order + [more], x) == First(order, x)
  {
    if order[0] != x {
      assert (order + [more])[1..] == order[1..] + [more];
      FirstStays(order[1..], x, more);
    }
  }

  lemma FollowsStays(order: seq<int>, l: seq<int>, more: int)
    requires Follows(order, l)
    ensures Follows(order + [more], l)
  {
    forall x | x in l ensures First(order + [more], x) == First(order, x) { FirstStays(order, x, more); }
  }

  /** Two lists that follow one order and have the same nodes are the same. */
  lemma {:induction false} SameNodesSameList(order: seq<int>, a: seq<int>, b: seq<int>)
    requires Follows(order, a) && Follows(order, b) && NodeSet(a) == NodeSet(b)
    ensures a == b
  {
    assert forall x :: x in a <==> x in NodeSet(a);
    assert forall x :: x in b <==> x in NodeSet(b);
    assert (a != [] ==> a[0] in b) && (b != [] ==> b[0] in a);
    if a != [] {
      assert First(order, a[0]) == First(order, b[0]);
      assert a[0] == b[0];
      forall x ensures x in NodeSet(a[1..]) <==> x in NodeSet(b[1..]) {
        RestNodes(order, a, x);
        RestNodes(order, b, x);
      }
      SameNodesSameList(order, a[1..], b[1..]);
    }
  }

  lemma RestNodes(order: seq<int>, l: seq<int>, x: int)
    requires l != [] && Follows(order, l)
    ensures x in l[1..] <==> x in l && x != l[0]
  {
  }

  lemma NumberedIsAcyclic(g: Graph, order: seq<int>)
    requires BackwardsNumbered(g, order) && forall u :: u in g ==> u in order
    ensures !Cyclic(g)
  {
    forall c | IsCycle(g, c) ensures false {
      var last := |c| - 1;
      if last > 0 { assert Edge(g, c[0], c[0 + 1]); }
      assert c[0] in g;
      PathDescends(g, order, c, last);
    }
  }
}

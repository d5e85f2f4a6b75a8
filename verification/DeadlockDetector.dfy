/** Depth-first search for wait-for cycles, proved to report simple cycles whose
    closing edges break every cycle of the graph. */
module DeadlockDetector {
  import opened Prelude
  import opened WaitGraph

  /** Every reported list is a simple cycle that follows the order of the visits;
      no two have the same nodes. */
  ghost predicate ReportSound(g: Graph, entered: seq<int>, cycles: seq<seq<int>>) {
    && (forall i :: 0 <= i < |cycles| ==> SimpleCycle(g, cycles[i]) && Follows(entered, cycles[i]))
    && (forall i, j :: 0 <= i < j < |cycles| ==> NodeSet(cycles[i]) != NodeSet(cycles[j]))
  }

  /** The stack is a simple path in the order of the visits, and a visited node off
      the stack is finished. */
  ghost predicate StackSound(g: Graph, visited: set<int>, stack: seq<int>, entered: seq<int>, finished: seq<int>) {
    && Distinct(stack) && IsPath(g, stack) && Follows(entered, stack)
    && visited == NodeSet(entered) == NodeSet(stack) + NodeSet(finished)
  }

  /** An edge has been followed: it leads to a finished node, or it closes a reported list. */
  ghost predicate Done(finished: seq<int>, cycles: seq<seq<int>>, u: int, v: int) {
    v in finished || Closed(cycles, u, v)
  }

  /** A list with the same nodes is there already. */
  predicate Reported(cycles: seq<seq<int>>, cycle: seq<int>) {
    exists i :: 0 <= i < |cycles| && NodeSet(cycles[i]) == NodeSet(cycle)
  }

  class Search {
    const waitFor: Graph
    var visited: set<int>
    var recStack: seq<int>
    var cycles: seq<seq<int>>
    ghost var entered: seq<int>    // visited nodes in the order their visits began
    ghost var finished: seq<int>   // those left again, in the order their visits ended

    constructor (g: Graph)
      ensures waitFor == g && visited == {} && recStack == [] && cycles == []
      ensures entered == [] && finished == []
    {
      waitFor, visited, recStack, cycles, entered, finished := g, {}, [], [], [], [];
    }

    /** Stack and report are sound, and the finished nodes number the graph
        backwards, apart from the closing edges of the reported lists. */
    ghost predicate Valid()
      reads this
    {
      && NoSelfLoops(waitFor)
      && StackSound(waitFor, visited, recStack, entered, finished)
      && ReportSound(waitFor, entered, cycles)
      && BackwardsNumbered(Opened(waitFor, cycles), finished)
    }

    ghost predicate Followed(u: int, v: int)
      reads this
    {
      Done(finished, cycles, u, v)
    }

    method Visit(node: int, ghost nodes: set<int>)
      requires Valid() && node in nodes && node !in visited && visited <= nodes
      requires forall u :: u in waitFor ==> waitFor[u] <= nodes
      requires recStack != [] ==> Edge(waitFor, recStack[|recStack| - 1], node)
      modifies this
      ensures Valid() && visited <= nodes
      ensures recStack == old(recStack) && old(visited) + {node} <= visited
      ensures forall u, v :: old(Followed(u, v)) ==> Followed(u, v)
      ensures NodeSet(old(finished)) + {node} <= NodeSet(finished)
      decreases nodes - visited, 0
    {
      hide Valid, Followed;
      Enter(node);
      var neighbours := if node in waitFor then waitFor[node] else {};
      while neighbours != {}
        invariant neighbours <= (if node in waitFor then waitFor[node] else {})
        invariant Valid() && visited <= nodes && old(visited) + {node} <= visited
        invariant recStack == old(recStack) + [node]
        invariant forall u, v :: old(Followed(u, v)) ==> Followed(u, v)
        invariant NodeSet(old(finished)) <= NodeSet(finished)
        invariant forall v :: Edge(waitFor, node, v) && v !in neighbours ==> Followed(node, v)
        decreases neighbours
      {
        var neighbour := PickFrom(neighbours);
        neighbours := neighbours - {neighbour};
        Follow(node, neighbour, nodes);
      }
      Leave(node);
    }

    method Enter(node: int)
      requires Valid() && node !in visited
      requires recStack != [] ==> Edge(waitFor, recStack[|recStack| - 1], node)
      modifies this`visited, this`recStack, this`entered
      ensures Valid() && visited == old(visited) + {node} && recStack == old(recStack) + [node]
      ensures forall u, v :: old(Followed(u, v)) ==> Followed(u, v)
    {
      NodeEntered(waitFor, visited, recStack, entered, finished, cycles, node);
      hide StackSound, ReportSound, BackwardsNumbered, Opened;
      visited := visited + {node};
      recStack := recStack + [node];
      entered := entered + [node];
    }

    method Leave(node: int)
      requires Valid() && recStack != [] && recStack[|recStack| - 1] == node
      requires forall v :: Edge(waitFor, node, v) ==> Followed(node, v)
      modifies this`recStack, this`finished
      ensures Valid() && recStack == old(recStack[..|recStack| - 1]) && finished == old(finished) + [node]
      ensures forall u, v :: old(Followed(u, v)) ==> Followed(u, v)
    {
      NodeLeft(waitFor, visited, recStack, entered, finished, cycles, node);
      hide StackSound, ReportSound, BackwardsNumbered, Opened;
      recStack := recStack[..|recStack| - 1];
      finished := finished + [node];
    }

    /** One edge out of the top of the stack. */
    method Follow(node: int, neighbour: int, ghost nodes: set<int>)
      requires Valid() && visited <= nodes && Edge(waitFor, node, neighbour)
      requires forall u :: u in waitFor ==> waitFor[u] <= nodes
      requires recStack != [] && recStack[|recStack| - 1] == node
      modifies this
      ensures Valid() && visited <= nodes
      ensures recStack == old(recStack) && old(visited) <= visited
      ensures forall u, v :: old(Followed(u, v)) ==> Followed(u, v)
      ensures NodeSet(old(finished)) <= NodeSet(finished)
      ensures Followed(node, neighbour)
      decreases nodes - visited, 1
    {
      if neighbour !in visited {
        assert neighbour in nodes;
        Visit(neighbour, nodes);
      } else if neighbour in recStack {
        ReportCycle(neighbour);
      }
    }

    /** A neighbour of the top of the stack that is itself on the stack closes a
        cycle.  A list with the same nodes that is already there is this very list. */
    method ReportCycle(neighbour: int)
      requires Valid() && recStack != [] && neighbour in recStack
      requires Edge(waitFor, recStack[|recStack| - 1], neighbour)
      modifies this`cycles
      ensures Valid() && Closed(cycles, recStack[|recStack| - 1], neighbour)
      ensures forall u, v :: old(Followed(u, v)) ==> Followed(u, v)
    {
      var start := First(recStack, neighbour);
      var cycle := recStack[start..];
      CycleClosed(waitFor, visited, recStack, entered, finished, cycles, start);
      hide Reported, SimpleCycle, Follows, BackwardsNumbered, Opened, Closed, ReportSound, StackSound, Edge;
      if !Reported(cycles, cycle) {
        cycles := cycles + [cycle];
      }
    }
  }

  lemma NodeEntered(g: Graph, visited: set<int>, stack: seq<int>, entered: seq<int>, finished: seq<int>,
                    cycles: seq<seq<int>>, node: int)
    requires StackSound(g, visited, stack, entered, finished) && ReportSound(g, entered, cycles)
    requires node !in visited && (stack != [] ==> Edge(g, stack[|stack| - 1], node))
    ensures StackSound(g, visited + {node}, stack + [node], entered + [node], finished)
    ensures ReportSound(g, entered + [node], cycles)
  {
    assert NodeSet(stack + [node]) == NodeSet(stack) + {node};
    assert NodeSet(entered + [node]) == NodeSet(entered) + {node};
    EnteringKeepsOrder(entered, stack, node);
    forall i | 0 <= i < |cycles| ensures Follows(entered + [node], cycles[i]) {
      FollowsStays(entered, cycles[i], node);
    }
  }

  lemma NodeLeft(g: Graph, visited: set<int>, stack: seq<int>, entered: seq<int>, finished: seq<int>,
                 cycles: seq<seq<int>>, node: int)
    requires StackSound(g, visited, stack, entered, finished) && stack != [] && stack[|stack| - 1] == node
    requires BackwardsNumbered(Opened(g, cycles), finished)
    requires forall v :: Edge(g, node, v) ==> Done(finished, cycles, node, v)
    ensures StackSound(g, visited, stack[..|stack| - 1], entered, finished + [node])
    ensures BackwardsNumbered(Opened(g, cycles), finished + [node])
    ensures NodeSet(finished + [node]) == NodeSet(finished) + {node}
  {
    assert BackwardsNumbered(Opened(g, cycles), finished + [node]) by {
      hide StackSound, BackwardsNumbered;
      forall v | Edge(Opened(g, cycles), node, v) ensures v in finished { assert Edge(g, node, v); }
      NumberingGrows(Opened(g, cycles), finished, node);
    }
    hide BackwardsNumbered, Opened, Edge, Done;
    assert stack == stack[..|stack| - 1] + [node];
  }

  /** The stack from a node on that the top leads back to is a cycle; it is a sound
      report, or it has been reported. */
  lemma CycleClosed(g: Graph, visited: set<int>, stack: seq<int>, entered: seq<int>, finished: seq<int>,
                    cycles: seq<seq<int>>, start: nat)
    requires NoSelfLoops(g) && StackSound(g, visited, stack, entered, finished)
    requires ReportSound(g, entered, cycles) && BackwardsNumbered(Opened(g, cycles), finished)
    requires start < |stack| && Edge(g, stack[|stack| - 1], stack[start])
    ensures var cycle, u, v := stack[start..], stack[|stack| - 1], stack[start];
      if Reported(cycles, cycle) then Closed(cycles, u, v)
      else
        && ReportSound(g, entered, cycles + [cycle])
        && BackwardsNumbered(Opened(g, cycles + [cycle]), finished)
        && Closed(cycles + [cycle], u, v)
    ensures forall u, v :: Closed(cycles, u, v) ==> Closed(cycles + [stack[start..]], u, v)
  {
    var cycle := stack[start..];
    StackTailIsCycle(g, visited, stack, entered, finished, start);
    hide *;
    OpeningKeepsNumbering(g, cycles, cycle, finished);
    if Reported(cycles, cycle) {
      AlreadyReported(g, entered, cycles, cycle);
    } else {
      OneMoreReport(g, entered, cycles, cycle);
    }
  }

  lemma StackTailIsCycle(g: Graph, visited: set<int>, stack: seq<int>, entered: seq<int>, finished: seq<int>,
                         start: nat)
    requires NoSelfLoops(g) && StackSound(g, visited, stack, entered, finished)
    requires start < |stack| && Edge(g, stack[|stack| - 1], stack[start])
    ensures SimpleCycle(g, stack[start..]) && Follows(entered, stack[start..])
  {
  }

  lemma AlreadyReported(g: Graph, entered: seq<int>, cycles: seq<seq<int>>, cycle: seq<int>)
    requires ReportSound(g, entered, cycles) && cycle != [] && Follows(entered, cycle) && Reported(cycles, cycle)
    ensures Closed(cycles, cycle[|cycle| - 1], cycle[0])
  {
    var i :| 0 <= i < |cycles| && NodeSet(cycles[i]) == NodeSet(cycle);
    SameNodesSameList(entered, cycles[i], cycle);
  }

  lemma OneMoreReport(g: Graph, entered: seq<int>, cycles: seq<seq<int>>, cycle: seq<int>)
    requires ReportSound(g, entered, cycles) && !Reported(cycles, cycle)
    requires SimpleCycle(g, cycle) && Follows(entered, cycle)
    ensures ReportSound(g, entered, cycles + [cycle])
    ensures Closed(cycles + [cycle], cycle[|cycle| - 1], cycle[0])
  {
    assert (cycles + [cycle])[|cycles|] == cycle;
    hide SimpleCycle, Follows;
  }

  lemma EnteringKeepsOrder(order: seq<int>, stack: seq<int>, node: int)
    requires Follows(order, stack) && node !in order
    ensures Follows(order + [node], stack + [node])
  {
    FollowsStays(order, stack, node);
    assert node in order + [node];
    assert First(order + [node], node) == |order|;
    forall x | x in stack ensures First(order + [node], x) < |order| { FirstStays(order, x, node); }
  }

  /** All cycles the search finds from the given waiting processes. */
  method FindCycles(g: Graph) returns (cycles: seq<seq<int>>)
    requires NoSelfLoops(g)
    ensures ExactReport(g, cycles)
  {
    if g == map[] {
      cycles := [];
      NumberedIsAcyclic(Opened(g, []), []);
      AcyclicOpenedCovers(g, []);
      return;
    }
    var search := new Search(g);
    ghost var nodes := Nodes(g);
    SuccessorsAreNodes(g);
    var keys: set<int> := g.Keys;
    while keys != {}
      invariant keys <= g.Keys && search.waitFor == g
      invariant fresh(search) && search.Valid() && search.recStack == [] && search.visited <= nodes
      invariant forall u :: u in g && u !in keys ==> u in search.visited
      decreases keys
    {
      var node := PickFrom(keys);
      keys := keys - {node};
      if node !in search.visited {
        search.Visit(node, nodes);
      }
    }
    cycles := search.cycles;
    NumberedIsAcyclic(Opened(g, cycles), search.finished);
    AcyclicOpenedCovers(g, cycles);
  }
}

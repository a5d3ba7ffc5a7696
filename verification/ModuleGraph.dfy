/**
 * The module dependency graph and its cycle detector
 * (scripts/generate-module-graph.js).
 *
 * A module imports other modules; the detector walks the import graph depth
 * first and reports one closed path per back edge. The build fails exactly
 * when something is reported, so what matters is that reports are genuine
 * cycles and that no cycle of the graph escapes every report.
 */
module ModuleGraph {

  type Node = string

  datatype Arc = Arc(from: Node, to: Node)

  datatype ModuleInfo = ModuleInfo(name: Node, imports: seq<Node>)

  /** A JavaScript object from module name to a Set of names: both remember insertion order. */
  datatype Graph = Graph(keys: seq<Node>, deps: map<Node, seq<Node>>)

  const EMPTY := Graph([], map[])

  ghost predicate WellFormed(g: Graph)
  {
    && (forall k :: k in g.keys <==> k in g.deps)
    && Distinct(g.keys)
    && forall k :: k in g.deps ==> Distinct(g.deps[k])
  }

  ghost predicate Distinct(s: seq<Node>)
  {
    forall i, j :: 0 <= i < j < |s| ==> s[i] != s[j]
  }

  /** `graph[node] || []`: a node that is only ever imported has no successors. */
  function Successors(g: Graph, n: Node): seq<Node>
  {
    if n in g.deps then g.deps[n] else []
  }

  ghost predicate Edge(g: Graph, u: Node, v: Node)
  {
    v in Successors(g, u)
  }

  // ---------------------------------------------------------------- cycles

  ghost predicate Walk(g: Graph, p: seq<Node>)
  {
    forall i, j :: 0 <= i && j == i + 1 && j < |p| ==> Edge(g, p[i], p[j])
  }

  /** A closed walk with at least one edge; its first node is repeated at the end. */
  ghost predicate Cycle(g: Graph, c: seq<Node>)
  {
    |c| >= 2 && c[0] == c[|c| - 1] && Walk(g, c)
  }

  ghost predicate SimpleCycle(g: Graph, c: seq<Node>)
  {
    Cycle(g, c) && Distinct(c[..|c| - 1])
  }

  ghost predicate Acyclic(g: Graph)
  {
    forall c :: !Cycle(g, c)
  }

  /** The back edge a report was raised for: the last step of the closed path. */
  ghost function ClosingEdge(c: seq<Node>): Arc
    requires |c| >= 2
  {
    Arc(c[|c| - 2], c[|c| - 1])
  }

  ghost function ClosingEdges(cycles: seq<seq<Node>>): set<Arc>
  {
    if cycles == [] then {}
    else
      var last := cycles[|cycles| - 1];
      ClosingEdges(cycles[..|cycles| - 1]) + (if |last| >= 2 then {ClosingEdge(last)} else {})
  }

  ghost predicate Uses(c: seq<Node>, e: Arc)
  {
    exists i, j :: 0 <= i && j == i + 1 && j < |c| && c[i] == e.from && c[j] == e.to
  }

  /** Removing the edges in `back` leaves no cycle behind. */
  ghost predicate CutsEveryCycle(g: Graph, back: set<Arc>)
  {
    forall c :: Cycle(g, c) ==> exists e :: e in back && Uses(c, e)
  }

  // ------------------------------------------------------- finishing order

  ghost function Nodes(s: seq<Node>): set<Node>
  {
    if s == [] then {} else Nodes(s[..|s| - 1]) + {s[|s| - 1]}
  }

  lemma {:induction false} NodesMember(s: seq<Node>)
    ensures forall n :: n in Nodes(s) <==> n in s
  {
    if s != [] {
      NodesMember(s[..|s| - 1]);
    }
  }

  lemma NodesContains(s: seq<Node>, n: Node)
    ensures n in Nodes(s) <==> n in s
  {
    NodesMember(s);
  }

  lemma NodesSnoc(s: seq<Node>, n: Node)
    ensures Nodes(s + [n]) == Nodes(s) + {n}
  {
    assert (s + [n])[..|s|] == s;
  }

  lemma NodesPrefix(s: seq<Node>, i: nat)
    requires i < |s|
    ensures Nodes(s[..i + 1]) == Nodes(s[..i]) + {s[i]}
  {
    assert s[..i + 1][..i] == s[..i];
  }

  /** In finishing order, each edge leads to a node that finished earlier or is a back edge. */
  ghost predicate Finishing(g: Graph, order: seq<Node>, back: set<Arc>)
  {
    order == [] ||
    var last := |order| - 1;
    && Finishing(g, order[..last], back)
    && forall v :: Edge(g, order[last], v) ==> v in Nodes(order[..last]) || Arc(order[last], v) in back
  }

  /** An independent witness of acyclicity: every module comes after all it imports. */
  ghost predicate Topological(g: Graph, order: seq<Node>)
  {
    && (forall k :: k in g.keys ==> k in order)
    && forall i, v :: 0 <= i < |order| && Edge(g, order[i], v) ==> v in order[..i]
  }

  lemma {:induction false} FinishedBefore(g: Graph, order: seq<Node>, back: set<Arc>, i: nat, v: Node)
    requires Finishing(g, order, back) && i < |order| && Edge(g, order[i], v)
    ensures v in order[..i] || Arc(order[i], v) in back
  {
    var last := |order| - 1;
    if i < last {
      FinishedBefore(g, order[..last], back, i, v);
      assert order[..last][..i] == order[..i];
    } else {
      NodesMember(order[..last]);
    }
  }

  lemma {:induction false} FinishingGrows(g: Graph, order: seq<Node>, back: set<Arc>, more: set<Arc>)
    requires Finishing(g, order, back) && back <= more
    ensures Finishing(g, order, more)
  {
    if order != [] {
      FinishingGrows(g, order[..|order| - 1], back, more);
    }
  }

  lemma FinishingSnoc(g: Graph, order: seq<Node>, back: set<Arc>, node: Node)
    requires Finishing(g, order, back)
    requires forall v :: Edge(g, node, v) ==> v in Nodes(order) || Arc(node, v) in back
    ensures Finishing(g, order + [node], back)
  {
    assert (order + [node])[..|order|] == order;
  }

  /** Following `c` without meeting a back edge keeps moving down the finishing order. */
  lemma {:induction false} WalkDescends(g: Graph, order: seq<Node>, back: set<Arc>, c: seq<Node>, at: nat, k: nat)
    returns (end: nat)
    requires Finishing(g, order, back) && Walk(g, c) && k < |c|
    requires forall e :: e in back ==> !Uses(c, e)
    requires at < |order| && order[at] == c[0]
    ensures end < |order| && order[end] == c[k] && end + k <= at
  {
    end := at;
    if k > 0 {
      var prev := WalkDescends(g, order, back, c, at, k - 1);
      assert Uses(c, Arc(c[k - 1], c[k]));
      FinishedBefore(g, order, back, prev, c[k]);
      end :| 0 <= end < prev && order[end] == c[k];
    }
  }

  lemma {:induction false} FirstPosition(order: seq<Node>, n: Node) returns (i: nat)
    requires n in order
    ensures i < |order| && order[i] == n && n !in order[..i]
  {
    var last := |order| - 1;
    if n in order[..last] {
      i := FirstPosition(order[..last], n);
      assert order[..last][..i] == order[..i];
    } else {
      i := last;
    }
  }

  /** A finishing order of all modules forces a back edge onto every cycle. */
  lemma FinishingCutsCycles(g: Graph, order: seq<Node>, back: set<Arc>)
    requires WellFormed(g) && Finishing(g, order, back) && Nodes(g.keys) <= Nodes(order)
    ensures CutsEveryCycle(g, back)
  {
    NodesMember(order);
    NodesMember(g.keys);
    forall c | Cycle(g, c)
      ensures exists e :: e in back && Uses(c, e)
    {
      if forall e :: e in back ==> !Uses(c, e) {
        assert Edge(g, c[0], c[1]);
        var first := FirstPosition(order, c[0]);
        var end := WalkDescends(g, order, back, c, first, |c| - 1);
        assert false;
      }
    }
  }

  // ------------------------------------------------------------ the search

  /** Every module and every imported name: nothing else is ever searched. */
  ghost function Universe(g: Graph): set<Node>
  {
    (set k | k in g.keys) + (set k, v | k in g.deps && v in g.deps[k] :: v)
  }

  lemma SuccessorInUniverse(g: Graph, u: Node, j: nat)
    requires j < |Successors(g, u)|
    ensures Successors(g, u)[j] in Universe(g)
  {
    assert u in g.deps && Successors(g, u)[j] in g.deps[u];
  }

  /** `path.indexOf(node)` for a node known to be on the path. */
  function IndexOf(path: seq<Node>, node: Node): (i: nat)
    requires node in path
    ensures i < |path| && path[i] == node && node !in path[..i]
  {
    if path[0] == node then 0 else
      var j := IndexOf(path[1..], node);
      assert path[..j + 1] == [path[0]] + path[1..][..j];
      j + 1
  }

  /** What the search shares between its calls, with the order in which nodes finished. */
  datatype State = State(visited: set<Node>, stack: set<Node>, cycles: seq<seq<Node>>, finished: seq<Node>)

  const START := State({}, {}, [], [])

  /** The value of one call of `dfs`. */
  ghost function Visit(g: Graph, s: State, node: Node, path: seq<Node>): (r: State)
    requires node in Universe(g) && s.stack == Nodes(path)
    ensures s.visited <= r.visited && r.stack == s.stack
    decreases Universe(g) - s.visited, 0, 0
  {
    NodesContains(path, node);
    NodesSnoc(path, node);
    if node in s.stack then s.(cycles := s.cycles + [path[IndexOf(path, node)..] + [node]])
    else if node in s.visited then s
    else
      Leave(VisitAll(g, Enter(s, node), node, 0, path + [node]), node)
  }

  /** The value of the loop of `dfs` over the successors of `node`, from number `i` on. */
  ghost function VisitAll(g: Graph, s: State, node: Node, i: nat, path: seq<Node>): (r: State)
    requires i <= |Successors(g, node)| && s.stack == Nodes(path)
    ensures s.visited <= r.visited && r.stack == s.stack
    decreases Universe(g) - s.visited, 1, |Successors(g, node)| - i
  {
    if i == |Successors(g, node)| then s
    else
      SuccessorInUniverse(g, node, i);
      VisitAll(g, Visit(g, s, Successors(g, node)[i], path), node, i + 1, path)
  }

  /** The value of the outer loop over the modules, from number `i` on. */
  ghost function Search(g: Graph, s: State, i: nat): (r: State)
    requires i <= |g.keys| && s.stack == {}
    decreases |g.keys| - i
  {
    if i == |g.keys| then s else Search(g, Visit(g, s, g.keys[i], []), i + 1)
  }

  function Enter(s: State, node: Node): State
  {
    s.(visited := s.visited + {node}, stack := s.stack + {node})
  }

  function Leave(s: State, node: Node): State
  {
    s.(stack := s.stack - {node}, finished := s.finished + [node])
  }

  // ------------------------------------------- what every call preserves

  /** Stepping from the end of a path back onto the path closes a simple cycle. */
  lemma ClosesSimpleCycle(g: Graph, path: seq<Node>, node: Node, start: nat)
    requires Walk(g, path) && Distinct(path)
    requires start < |path| && path[start] == node && Edge(g, path[|path| - 1], node)
    ensures SimpleCycle(g, path[start..] + [node])
    ensures ClosingEdge(path[start..] + [node]) == Arc(path[|path| - 1], node)
  {
    var c := path[start..] + [node];
    forall i, j | 0 <= i && j == i + 1 && j < |c|
      ensures Edge(g, c[i], c[j])
    {
      if j < |c| - 1 {
        assert Edge(g, path[start + i], path[start + j]);
      }
    }
    assert c[..|c| - 1] == path[start..];
  }

  /** The reports are simple cycles, closed by pairwise different edges; `back` is the set of those edges. */
  ghost predicate Reports(g: Graph, cycles: seq<seq<Node>>, back: set<Arc>)
  {
    && (forall i :: 0 <= i < |cycles| ==> SimpleCycle(g, cycles[i]))
    && back == ClosingEdges(cycles) && |back| == |cycles|
  }

  /** Stacked nodes are the current path, a simple walk; every other visited node has finished. */
  ghost predicate Placed(g: Graph, s: State, path: seq<Node>)
  {
    && Distinct(path) && Walk(g, path) && s.stack == Nodes(path)
    && s.visited == s.stack + Nodes(s.finished) && s.stack !! Nodes(s.finished)
  }

  /** The invariant of the search while `path` leads to the current node. */
  ghost predicate Inv(g: Graph, s: State, path: seq<Node>, back: set<Arc>)
  {
    && Placed(g, s, path)
    && Reports(g, s.cycles, back)
    && (forall e :: e in back ==> e.from in s.visited)
    && Finishing(g, s.finished, back)
  }

  /** What a call that started in `s` with back edges `before` may have added. */
  ghost predicate Grown(s: State, before: set<Arc>, r: State, after: set<Arc>)
  {
    s.visited <= r.visited && before <= after && Nodes(s.finished) <= Nodes(r.finished)
  }

  /** The edge from `u` to `v` leads to a finished node or is a back edge. */
  ghost predicate Settled(s: State, back: set<Arc>, u: Node, v: Node)
  {
    v in Nodes(s.finished) || Arc(u, v) in back
  }

  /** So do the edges from `u` to its successors from number `i` on. */
  ghost predicate SettledFrom(g: Graph, s: State, back: set<Arc>, u: Node, i: nat)
    decreases |Successors(g, u)| - i
  {
    i == |Successors(g, u)| ||
    (i < |Successors(g, u)| && Settled(s, back, u, Successors(g, u)[i]) && SettledFrom(g, s, back, u, i + 1))
  }

  lemma {:induction false} SettledAll(g: Graph, s: State, back: set<Arc>, u: Node, i: nat)
    requires SettledFrom(g, s, back, u, i)
    ensures forall j :: i <= j < |Successors(g, u)| ==> Settled(s, back, u, Successors(g, u)[j])
    decreases |Successors(g, u)| - i
  {
    if i < |Successors(g, u)| {
      SettledAll(g, s, back, u, i + 1);
    }
  }

  ghost predicate ArrivesFrom(g: Graph, path: seq<Node>, node: Node, back: set<Arc>)
  {
    path != [] ==> Edge(g, path[|path| - 1], node) && Arc(path[|path| - 1], node) !in back
  }

  lemma ReportsSnoc(g: Graph, cycles: seq<seq<Node>>, back: set<Arc>, c: seq<Node>)
    requires Reports(g, cycles, back) && SimpleCycle(g, c) && ClosingEdge(c) !in back
    ensures Reports(g, cycles + [c], back + {ClosingEdge(c)})
  {
    assert (cycles + [c])[..|cycles|] == cycles;
  }

  lemma ReportsOneMore(g: Graph, cycles: seq<seq<Node>>, back: set<Arc>, path: seq<Node>, node: Node)
    requires Reports(g, cycles, back) && Walk(g, path) && Distinct(path) && node in path
    requires ArrivesFrom(g, path, node, back)
    ensures Reports(g, cycles + [path[IndexOf(path, node)..] + [node]], back + {Arc(path[|path| - 1], node)})
  {
    ClosesSimpleCycle(g, path, node, IndexOf(path, node));
    ReportsSnoc(g, cycles, back, path[IndexOf(path, node)..] + [node]);
  }

  lemma ReportKeepsInv(g: Graph, s: State, path: seq<Node>, back: set<Arc>, node: Node)
    requires Inv(g, s, path, back) && node in path && ArrivesFrom(g, path, node, back)
    ensures Inv(g, s.(cycles := s.cycles + [path[IndexOf(path, node)..] + [node]]), path,
                back + {Arc(path[|path| - 1], node)})
  {
    ReportsOneMore(g, s.cycles, back, path, node);
    FinishingGrows(g, s.finished, back, back + {Arc(path[|path| - 1], node)});
  }

  lemma PathSnoc(g: Graph, path: seq<Node>, node: Node)
    requires path != [] ==> Edge(g, path[|path| - 1], node)
    ensures Distinct(path + [node]) && Walk(g, path + [node]) <==>
            Distinct(path) && Walk(g, path) && node !in Nodes(path)
    ensures Nodes(path + [node]) == Nodes(path) + {node}
  {
    var here := path + [node];
    NodesSnoc(path, node);
    NodesMember(path);
    assert here[|path|] == node && forall i :: 0 <= i < |path| ==> here[i] == path[i];
  }

  lemma EnterKeepsInv(g: Graph, s: State, path: seq<Node>, back: set<Arc>, node: Node)
    requires Inv(g, s, path, back) && node !in s.visited && ArrivesFrom(g, path, node, back)
    ensures Inv(g, Enter(s, node), path + [node], back)
  {
    PathSnoc(g, path, node);
    assert Placed(g, Enter(s, node), path + [node]);
  }

  lemma LeaveKeepsInv(g: Graph, s: State, path: seq<Node>, back: set<Arc>, node: Node)
    requires Inv(g, s, path + [node], back)
    requires path != [] ==> Edge(g, path[|path| - 1], node)
    requires forall v :: Edge(g, node, v) ==> Settled(s, back, node, v)
    ensures Inv(g, Leave(s, node), path, back)
  {
    FinishingSnoc(g, s.finished, back, node);
    PathSnoc(g, path, node);
    NodesSnoc(s.finished, node);
    assert Placed(g, Leave(s, node), path);
  }

  /** One call keeps the invariant, finishes or reports its node, and adds back edges only from new nodes. */
  lemma {:induction false} VisitKeepsInv(g: Graph, s: State, node: Node, path: seq<Node>, back: set<Arc>)
    returns (after: set<Arc>)
    requires WellFormed(g) && Inv(g, s, path, back) && node in Universe(g) && ArrivesFrom(g, path, node, back)
    ensures var r := Visit(g, s, node, path);
            && Inv(g, r, path, after) && Grown(s, back, r, after)
            && (node in Nodes(r.finished) || (path != [] && Arc(path[|path| - 1], node) in after))
            && forall e :: e in after && e !in back ==>
                 e.from !in s.visited || (path != [] && e == Arc(path[|path| - 1], node))
    decreases Universe(g) - s.visited, 0, 0
  {
    NodesContains(path, node);
    NodesSnoc(path, node);
    if node in s.stack {
      ReportKeepsInv(g, s, path, back, node);
      after := back + {Arc(path[|path| - 1], node)};
    } else if node in s.visited {
      after := back;
    } else {
      EnterKeepsInv(g, s, path, back, node);
      var here := path + [node];
      after := VisitAllKeepsInv(g, Enter(s, node), node, 0, here, back);
      SettledAll(g, VisitAll(g, Enter(s, node), node, 0, here), after, node, 0);
      LeaveKeepsInv(g, VisitAll(g, Enter(s, node), node, 0, here), path, after, node);
    }
  }

  /** No edge from `u` to its successors from number `i` on has been reported. */
  ghost predicate UnreportedFrom(g: Graph, back: set<Arc>, u: Node, i: nat)
  {
    forall j :: i <= j < |Successors(g, u)| ==> Arc(u, Successors(g, u)[j]) !in back
  }

  /** Back edges found by exploring `u` leave `u` or a node that was new. */
  ghost predicate NewEdges(s: State, back: set<Arc>, after: set<Arc>, u: Node)
  {
    forall e :: e in after && e !in back ==> e.from !in s.visited || e.from == u
  }

  /** One pass of the loop deals with successor number `i` and leaves the later ones unreported. */
  lemma {:induction false} VisitNextKeepsInv(g: Graph, s: State, node: Node, i: nat, path: seq<Node>, back: set<Arc>)
    returns (after: set<Arc>)
    requires WellFormed(g) && Inv(g, s, path, back) && path != [] && path[|path| - 1] == node
    requires i < |Successors(g, node)| && UnreportedFrom(g, back, node, i)
    requires Successors(g, node)[i] in Universe(g)
    ensures var r := Visit(g, s, Successors(g, node)[i], path);
            && Inv(g, r, path, after) && Grown(s, back, r, after) && NewEdges(s, back, after, node)
            && Settled(r, after, node, Successors(g, node)[i]) && UnreportedFrom(g, after, node, i + 1)
    decreases Universe(g) - s.visited, 1, 0
  {
    assert Edge(g, node, Successors(g, node)[i]);
    after := VisitKeepsInv(g, s, Successors(g, node)[i], path, back);
    assert node in Nodes(path);
    assert Distinct(Successors(g, node));
  }

  lemma GrownTransitive(s: State, back: set<Arc>, t: State, mid: set<Arc>, r: State, after: set<Arc>, u: Node)
    requires Grown(s, back, t, mid) && Grown(t, mid, r, after)
    requires NewEdges(s, back, mid, u) && NewEdges(t, mid, after, u)
    ensures Grown(s, back, r, after) && NewEdges(s, back, after, u)
  {
  }

  /** The loop from successor `i` on, when no later successor has been reported. */
  lemma {:induction false} VisitAllKeepsInv(g: Graph, s: State, node: Node, i: nat, path: seq<Node>, back: set<Arc>)
    returns (after: set<Arc>)
    requires WellFormed(g) && Inv(g, s, path, back) && path != [] && path[|path| - 1] == node
    requires i <= |Successors(g, node)| && UnreportedFrom(g, back, node, i)
    ensures var r := VisitAll(g, s, node, i, path);
            && Inv(g, r, path, after) && Grown(s, back, r, after) && NewEdges(s, back, after, node)
            && SettledFrom(g, r, after, node, i)
    decreases Universe(g) - s.visited, 2, |Successors(g, node)| - i
  {
    if i == |Successors(g, node)| {
      after := back;
    } else {
      SuccessorInUniverse(g, node, i);
      var t := Visit(g, s, Successors(g, node)[i], path);
      var mid := VisitNextKeepsInv(g, s, node, i, path, back);
      after := VisitAllKeepsInv(g, t, node, i + 1, path, mid);
      var r := VisitAll(g, t, node, i + 1, path);
      assert r == VisitAll(g, s, node, i, path);
      GrownTransitive(s, back, t, mid, r, after, node);
      assert Settled(r, after, node, Successors(g, node)[i]);
    }
  }

  lemma VisitRootKeepsInv(g: Graph, s: State, root: Node, back: set<Arc>) returns (after: set<Arc>)
    requires WellFormed(g) && Inv(g, s, [], back) && root in Universe(g)
    ensures var r := Visit(g, s, root, []);
            Inv(g, r, [], after) && Nodes(s.finished) + {root} <= Nodes(r.finished)
  {
    after := VisitKeepsInv(g, s, root, [], back);
  }

  lemma {:induction false} SearchKeepsInv(g: Graph, s: State, i: nat, back: set<Arc>) returns (after: set<Arc>)
    requires WellFormed(g) && i <= |g.keys| && Inv(g, s, [], back) && s.stack == {}
    requires Nodes(g.keys[..i]) <= Nodes(s.finished)
    ensures Inv(g, Search(g, s, i), [], after)
    ensures Nodes(g.keys) <= Nodes(Search(g, s, i).finished)
    decreases |g.keys| - i
  {
    if i == |g.keys| {
      assert g.keys[..i] == g.keys;
      after := back;
    } else {
      NodesPrefix(g.keys, i);
      var mid := VisitRootKeepsInv(g, s, g.keys[i], back);
      after := SearchKeepsInv(g, Visit(g, s, g.keys[i], []), i + 1, mid);
    }
  }

  lemma FinishingIsTopological(g: Graph, order: seq<Node>)
    requires Finishing(g, order, {}) && Nodes(g.keys) <= Nodes(order)
    ensures Topological(g, order)
  {
    NodesMember(g.keys);
    NodesMember(order);
    forall i, v | 0 <= i < |order| && Edge(g, order[i], v)
      ensures v in order[..i]
    {
      FinishedBefore(g, order, {}, i, v);
    }
  }

  /** The search reports nothing exactly on acyclic graphs, and its reports cut every cycle. */
  lemma SearchIsComplete(g: Graph)
    requires WellFormed(g)
    ensures var r := Search(g, START, 0);
            && (r.cycles == [] <==> Acyclic(g))
            && (forall i :: 0 <= i < |r.cycles| ==> SimpleCycle(g, r.cycles[i]))
            && |ClosingEdges(r.cycles)| == |r.cycles|
            && CutsEveryCycle(g, ClosingEdges(r.cycles))
            && (r.cycles == [] ==> Topological(g, r.finished))
  {
    assert g.keys[..0] == [];
    var back := SearchKeepsInv(g, START, 0, {});
    var r := Search(g, START, 0);
    FinishingCutsCycles(g, r.finished, back);
    if r.cycles == [] {
      FinishingIsTopological(g, r.finished);
    } else {
      assert Cycle(g, r.cycles[0]);
    }
  }

  // ------------------------------------------------------------ the program

  /** `detectCycles`: the sets and the result list that the nested `dfs` shares. */
  class CycleDetector {
    const graph: Graph
    var visited: set<Node>
    var stack: set<Node>
    var cycles: seq<seq<Node>>
    ghost var finished: seq<Node>

    ghost function Now(): State
      reads this
    {
      State(visited, stack, cycles, finished)
    }

    constructor (g: Graph)
      ensures graph == g && Now() == START
    {
      graph := g;
      visited, stack, cycles, finished := {}, {}, [], [];
    }

    /** `stack` is the set of nodes on `path` at every entry, so `indexOf` cannot miss. */
    method Dfs(node: Node, path: seq<Node>)
      requires node in Universe(graph) && stack == Nodes(path)
      modifies this
      ensures Now() == Visit(graph, old(Now()), node, path)
      decreases Universe(graph) - visited, 0
    {
      NodesContains(path, node);
      NodesSnoc(path, node);
      if node in stack {
        var cycleStart := IndexOf(path, node);
        cycles := cycles + [path[cycleStart..] + [node]];
        return;
      }
      if node in visited {
        return;
      }
      visited := visited + {node};
      stack := stack + {node};
      var neighbours := Successors(graph, node);
      ghost var entered := Now();
      assert entered == Enter(old(Now()), node);
      for i := 0 to |neighbours|
        invariant stack == Nodes(path + [node]) && entered.visited <= visited
        invariant VisitAll(graph, Now(), node, i, path + [node]) ==
                  VisitAll(graph, entered, node, 0, path + [node])
      {
        SuccessorInUniverse(graph, node, i);
        Dfs(neighbours[i], path + [node]);
      }
      assert Now() == VisitAll(graph, entered, node, 0, path + [node]);
      stack := stack - {node};
      finished := finished + [node];
    }
  }

  /**
   * The cycle list behind the exit code. It is empty exactly when the graph is
   * acyclic; each report is a simple cycle; no closing edge is reported twice;
   * and deleting the closing edges of the reports would break every cycle.
   */
  method DetectCycles(g: Graph) returns (cycles: seq<seq<Node>>)
    requires WellFormed(g)
    ensures cycles == [] <==> Acyclic(g)
    ensures forall i :: 0 <= i < |cycles| ==> SimpleCycle(g, cycles[i])
    ensures |ClosingEdges(cycles)| == |cycles|
    ensures CutsEveryCycle(g, ClosingEdges(cycles))
    ensures cycles == [] ==> exists order :: Topological(g, order)
  {
    var d := new CycleDetector(g);
    for i := 0 to |g.keys|
      invariant d.graph == g && d.stack == {}
      invariant Search(g, d.Now(), i) == Search(g, START, 0)
    {
      d.Dfs(g.keys[i], []);
    }
    cycles := d.cycles;
    SearchIsComplete(g);
  }

  // ------------------------------------------- from module files to the gate

  ghost predicate Imports(infos: seq<ModuleInfo>, u: Node, v: Node)
  {
    exists i :: 0 <= i < |infos| && infos[i].name == u && v in infos[i].imports
  }

  /** `Set.add`: the first insertion fixes the position. */
  function Add(s: seq<Node>, x: Node): seq<Node>
  {
    if x in s then s else s + [x]
  }

  /** The set after adding every element of `xs` in turn. */
  function AddAll(s: seq<Node>, xs: seq<Node>): seq<Node>
    decreases xs
  {
    if xs == [] then s else AddAll(Add(s, xs[0]), xs[1..])
  }

  lemma {:induction false} AddAllIsUnion(s: seq<Node>, xs: seq<Node>)
    requires Distinct(s)
    ensures Distinct(AddAll(s, xs))
    ensures forall v :: v in AddAll(s, xs) <==> v in s || v in xs
    decreases xs
  {
    if xs != [] {
      AddAllIsUnion(Add(s, xs[0]), xs[1..]);
    }
  }

  /** `graph[name].add(dep)` for each dependency of one file. */
  method AddImports(g: Graph, name: Node, imports: seq<Node>) returns (r: Graph)
    requires WellFormed(g) && name in g.deps
    ensures WellFormed(r) && r.keys == g.keys
    ensures forall u, v :: Edge(r, u, v) <==> Edge(g, u, v) || (u == name && v in imports)
  {
    var deps := g.deps[name];
    for j := 0 to |imports|
      invariant AddAll(deps, imports[j..]) == AddAll(g.deps[name], imports)
    {
      assert imports[j..][1..] == imports[j + 1..];
      deps := Add(deps, imports[j]);
    }
    AddAllIsUnion(g.deps[name], imports);
    r := Graph(g.keys, g.deps[name := deps]);
  }

  /** One pass of the main loop: a module declared twice keeps its node. */
  method AddModule(g: Graph, info: ModuleInfo) returns (r: Graph)
    requires WellFormed(g)
    ensures WellFormed(r)
    ensures forall k :: k in r.keys <==> k in g.keys || k == info.name
    ensures forall u, v :: Edge(r, u, v) <==> Edge(g, u, v) || (u == info.name && v in info.imports)
  {
    var base := g;
    if info.name !in g.deps {
      base := Graph(g.keys + [info.name], g.deps[info.name := []]);
    }
    r := AddImports(base, info.name, info.imports);
  }

  ghost predicate Declared(infos: seq<ModuleInfo>, k: Node)
  {
    exists i :: 0 <= i < |infos| && infos[i].name == k
  }

  /** The main loop over all module files. */
  method BuildGraph(infos: seq<ModuleInfo>) returns (g: Graph)
    ensures WellFormed(g)
    ensures forall u, v :: Edge(g, u, v) <==> Imports(infos, u, v)
    ensures forall k :: k in g.keys <==> Declared(infos, k)
  {
    g := EMPTY;
    for i := 0 to |infos|
      invariant WellFormed(g)
      invariant forall u, v :: Edge(g, u, v) <==> Imports(infos[..i], u, v)
      invariant forall k :: k in g.keys <==> Declared(infos[..i], k)
    {
      g := AddModule(g, infos[i]);
      ImportsOneMore(infos[..i], infos[i]);
      assert infos[..i + 1] == infos[..i] + [infos[i]];
    }
    assert infos[..|infos|] == infos;
  }

  lemma ImportsOneMore(infos: seq<ModuleInfo>, info: ModuleInfo)
    ensures forall u, v :: Imports(infos + [info], u, v) <==>
              Imports(infos, u, v) || (u == info.name && v in info.imports)
    ensures forall k :: Declared(infos + [info], k) <==> Declared(infos, k) || k == info.name
  {
    var longer := infos + [info];
    assert longer[|infos|] == info;
    assert forall j :: 0 <= j < |infos| ==> longer[j] == infos[j];
  }

  /** A circle of imports between the files themselves. */
  ghost predicate ImportCycle(infos: seq<ModuleInfo>, c: seq<Node>)
  {
    |c| >= 2 && c[0] == c[|c| - 1] &&
    forall i, j :: 0 <= i && j == i + 1 && j < |c| ==> Imports(infos, c[i], c[j])
  }

  /** The exit code of the script: 1 exactly when the module files import each other in a circle. */
  method ExitCode(infos: seq<ModuleInfo>) returns (code: int)
    ensures code == 0 || code == 1
    ensures code == 1 <==> exists c :: ImportCycle(infos, c)
  {
    var g := BuildGraph(infos);
    var cycles := DetectCycles(g);
    code := if |cycles| > 0 then 1 else 0;
    assert forall c :: Cycle(g, c) <==> ImportCycle(infos, c);
    if code == 1 {
      assert ImportCycle(infos, cycles[0]);
    }
  }
}

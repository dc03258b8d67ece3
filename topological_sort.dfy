/** `TopologicalSort` and `Visit`: a depth-first search over the dependency
    graph with a state map (visiting / visited), a path stack and a
    post-order result list. It either returns every node after all of its
    dependencies, or stops at the first edge that closes a cycle. */
module TopologicalSort {
  import opened Wrappers
  import opened Seqs
  import opened Reflection

  /** `Dictionary<Type, HashSet<Type>>`: the keys in enumeration order and the
      dependencies of each key. */
  datatype Graph = Graph(keys: seq<TypeId>, adj: map<TypeId, seq<TypeId>>)

  /** The keys are listed once each, and every dependency is itself a key. */
  ghost predicate Valid(g: Graph)
  {
    && NoDuplicates(g.keys)
    && (forall u :: u in g.adj <==> u in g.keys)
    && (forall u, v :: u in g.adj && v in g.adj[u] ==> v in g.adj)
  }

  /** A walk along dependency edges. */
  ghost predicate IsPath(g: Graph, p: seq<TypeId>)
  {
    && (forall i :: 0 <= i < |p| ==> p[i] in g.adj)
    && (forall i :: 0 <= i < |p| - 1 ==> p[i] in g.adj && p[i + 1] in g.adj[p[i]])
  }

  /** A walk of at least one edge that ends where it starts. */
  ghost predicate IsCycle(g: Graph, c: seq<TypeId>)
  {
    |c| >= 2 && c[0] == c[|c| - 1] && IsPath(g, c)
  }

  ghost predicate Acyclic(g: Graph)
  {
    forall c :: !IsCycle(g, c)
  }

  /** Every key exactly once, each after all of its dependencies. */
  ghost predicate IsTopologicalOrder(g: Graph, r: seq<TypeId>)
  {
    && NoDuplicates(r)
    && (forall u :: u in r <==> u in g.adj)
    && (forall i, v :: 0 <= i < |r| && r[i] in g.adj && v in g.adj[r[i]] ==> v in r[..i])
  }

  /** The node values of the state dictionary (1 and 2; absence is 0). */
  datatype Mark = Visiting | Visited

  /** Where the search stood when it met a node still being visited: the
      path stack, bottom first, and that node. */
  datatype Detected = Detected(stack: seq<TypeId>, node: TypeId)

  /** The chain the exception message of `Visit` prints: the stack read
      bottom-up up to the first occurrence of the node, reversed, followed by
      the node. */
  function ReportedChainAsWritten(d: Detected): (r: seq<TypeId>)
    requires d.node in d.stack
    ensures |r| == IndexOf(d.stack, d.node) + 1 && r[|r| - 1] == d.node
  {
    Reverse(d.stack[..IndexOf(d.stack, d.node)]) + [d.node]
  }

  function Reverse(s: seq<TypeId>): (r: seq<TypeId>)
    ensures |r| == |s|
    ensures forall i :: 0 <= i < |s| ==> r[i] == s[|s| - 1 - i]
  {
    if s == [] then [] else Reverse(s[1..]) + [s[0]]
  }

  /** The cycle that was found: the stack from the first occurrence of the
      node to the top, closed by the edge back to the node. */
  function CycleChain(d: Detected): (c: seq<TypeId>)
    requires d.node in d.stack
    ensures |c| >= 2 && c[0] == d.node && c[|c| - 1] == d.node
  {
    d.stack[IndexOf(d.stack, d.node)..] + [d.node]
  }

  /** The printed chain is never a cycle, of any graph: it starts at the
      stack entry just below the node (or is only the node). */
  lemma ReportedChainIsNeverACycle(g: Graph, d: Detected)
    requires d.node in d.stack
    ensures !IsCycle(g, ReportedChainAsWritten(d))
  {
    var k := IndexOf(d.stack, d.node);
    var c := ReportedChainAsWritten(d);
    if k > 0 {
      assert c[0] == d.stack[k - 1];
      assert d.stack[k - 1] in d.stack[..k];
    }
  }

  /** For the two-node cycle A -> B -> A, searched from A, the message names
      only A, while the cycle is A -> B -> A. */
  lemma ReportedChainTwoCycleExample()
    ensures var g := Graph([0, 1], map[0 := [1], 1 := [0]]);
            var d := Detected([0, 1], 0);
            && ReportedChainAsWritten(d) == [0]
            && CycleChain(d) == [0, 1, 0]
            && IsCycle(g, CycleChain(d))
  {
    var d := Detected([0, 1], 0);
    assert IndexOf(d.stack, d.node) == 0;
    assert Reverse([]) == [];
  }

  /** What holds between calls of `Visit`: exactly the nodes on the path are
      being visited, the path is a walk, and `result` lists the visited
      nodes, each after its dependencies. */
  ghost predicate SearchInv(g: Graph, state: map<TypeId, Mark>, path: seq<TypeId>, result: seq<TypeId>)
  {
    && (forall u :: u in state ==> u in g.adj)
    && (forall u :: u in path ==> u in state && state[u] == Visiting)
    && (forall u :: u in state && state[u] == Visiting ==> u in path)
    && NoDuplicates(path)
    && IsPath(g, path)
    && NoDuplicates(result)
    && (forall u :: u in result <==> u in state && state[u] == Visited)
    && (forall i, v :: 0 <= i < |result| && result[i] in g.adj && v in g.adj[result[i]] ==> v in result[..i])
  }

  /** The found chain is a cycle of the graph. */
  lemma DetectedIsCycle(g: Graph, path: seq<TypeId>, node: TypeId)
    requires IsPath(g, path)
    requires node in path && node in g.adj[path[|path| - 1]]
    ensures IsCycle(g, CycleChain(Detected(path, node)))
  {
    var k := IndexOf(path, node);
    var c := CycleChain(Detected(path, node));
    assert c == path[k..] + [node];
    forall i | 0 <= i < |c| - 1
      ensures c[i] in g.adj && c[i + 1] in g.adj[c[i]]
    {
      if i < |c| - 2 {
        assert c[i] == path[k + i] && c[i + 1] == path[k + i + 1];
      } else {
        assert c[i] == path[|path| - 1];
      }
    }
  }

  /** Pushing an unvisited node that extends the walk keeps the invariant. */
  lemma PushKeepsSearchInv(g: Graph, state: map<TypeId, Mark>, path: seq<TypeId>, result: seq<TypeId>, node: TypeId)
    requires SearchInv(g, state, path, result)
    requires node in g.adj && node !in state
    requires path == [] || node in g.adj[path[|path| - 1]]
    ensures SearchInv(g, state[node := Visiting], path + [node], result)
  {
    var p := path + [node];
    assert forall i :: 0 <= i < |path| ==> p[i] == path[i];
  }

  /** Popping a node whose dependencies are all visited, and appending it to
      the result, keeps the invariant. */
  lemma PopKeepsSearchInv(g: Graph, state: map<TypeId, Mark>, path: seq<TypeId>, result: seq<TypeId>, node: TypeId)
    requires SearchInv(g, state, path + [node], result)
    requires node in g.adj
    requires forall v :: v in g.adj[node] ==> v in result
    ensures SearchInv(g, state[node := Visited], path, result + [node])
  {
    var p := path + [node];
    assert forall i :: 0 <= i < |path| ==> p[i] == path[i];
    assert p[|path|] == node;
    assert node !in path;
    assert node !in result;
    var r := result + [node];
    assert r[..|result|] == result;
    assert forall i :: 0 <= i < |result| ==> r[..i] == result[..i];
  }

  /** What a search leaves behind: the state dictionary, the result list and
      the cycle it stopped at, if any. */
  datatype Search = Search(state: map<TypeId, Mark>, result: seq<TypeId>, cycle: Option<Detected>)

  /** `Visit(node)` as a function of the state, the path stack (bottom first)
      and the result: a node still being visited stops the search; a visited
      node changes nothing; any other node is marked, pushed, has its
      dependencies visited in order, and is then popped, marked visited and
      appended to the result. */
  function VisitOf(g: Graph, node: TypeId, state: map<TypeId, Mark>, path: seq<TypeId>, result: seq<TypeId>): (s: Search)
    requires Valid(g) && node in g.adj
    ensures state.Keys <= s.state.Keys
    decreases g.adj.Keys - state.Keys, 0, 0
  {
    if node in state then
      if state[node] == Visiting then Search(state, result, Some(Detected(path, node)))
      else Search(state, result, None)
    else
      assert state[node := Visiting].Keys == state.Keys + {node};
      var s := VisitDeps(g, g.adj[node], 0, state[node := Visiting], path + [node], result);
      if s.cycle.Some? then s
      else Search(s.state[node := Visited], s.result + [node], None)
  }

  /** The `foreach` over the dependencies of the node on top of the path,
      from the `k`-th on, stopping at the first cycle. */
  function VisitDeps(g: Graph, deps: seq<TypeId>, k: nat, state: map<TypeId, Mark>, path: seq<TypeId>, result: seq<TypeId>): (s: Search)
    requires Valid(g) && k <= |deps|
    requires forall v :: v in deps ==> v in g.adj
    ensures state.Keys <= s.state.Keys
    decreases g.adj.Keys - state.Keys, 1, |deps| - k
  {
    if k == |deps| then Search(state, result, None)
    else
      var s := VisitOf(g, deps[k], state, path, result);
      if s.cycle.Some? then s
      else VisitDeps(g, deps, k + 1, s.state, path, s.result)
  }

  /** The `foreach` over the keys of `TopologicalSort`, from the `i`-th on:
      each key not yet in the state is visited with an empty path. */
  function RootsFrom(g: Graph, i: nat, state: map<TypeId, Mark>, result: seq<TypeId>): Result<seq<TypeId>, Detected>
    requires Valid(g) && i <= |g.keys|
    decreases |g.keys| - i
  {
    if i == |g.keys| then Ok(result)
    else
      var node := g.keys[i];
      if node in state then RootsFrom(g, i + 1, state, result)
      else
        var s := VisitOf(g, node, state, [], result);
        if s.cycle.Some? then Err(s.cycle.value)
        else RootsFrom(g, i + 1, s.state, s.result)
  }

  /** The outcome of `TopologicalSort`: the post-order of the search, or the
      point where it met a cycle. */
  function DfsOrder(g: Graph): Result<seq<TypeId>, Detected>
    requires Valid(g)
  {
    RootsFrom(g, 0, map[], [])
  }

  /** A visit keeps the search invariant and appends the node to the result,
      or stops at a cycle of the graph. */
  lemma VisitOfInv(g: Graph, node: TypeId, state: map<TypeId, Mark>, path: seq<TypeId>, result: seq<TypeId>)
    requires Valid(g) && node in g.adj
    requires SearchInv(g, state, path, result)
    requires path == [] || node in g.adj[path[|path| - 1]]
    ensures var s := VisitOf(g, node, state, path, result);
            s.cycle.None? ==> SearchInv(g, s.state, path, s.result) && node in s.result && result <= s.result
    ensures var s := VisitOf(g, node, state, path, result);
            s.cycle.Some? ==> s.cycle.value.node in s.cycle.value.stack && IsCycle(g, CycleChain(s.cycle.value))
    decreases g.adj.Keys - state.Keys, 0, 0
  {
    if node in state {
      if state[node] == Visiting {
        DetectedIsCycle(g, path, node);
      }
    } else {
      PushKeepsSearchInv(g, state, path, result, node);
      var deps := g.adj[node];
      VisitDepsInv(g, deps, 0, state[node := Visiting], path + [node], result);
      var s := VisitDeps(g, deps, 0, state[node := Visiting], path + [node], result);
      if s.cycle.None? {
        assert forall v :: v in deps ==> v in s.result by {
          forall v | v in deps
            ensures v in s.result
          {
            var j :| 0 <= j < |deps| && deps[j] == v;
          }
        }
        PopKeepsSearchInv(g, s.state, path, s.result, node);
      }
    }
  }

  /** Visiting the remaining dependencies keeps the invariant and puts each
      of them in the result, or stops at a cycle of the graph. */
  lemma VisitDepsInv(g: Graph, deps: seq<TypeId>, k: nat, state: map<TypeId, Mark>, path: seq<TypeId>, result: seq<TypeId>)
    requires Valid(g) && k <= |deps|
    requires forall v :: v in deps ==> v in g.adj
    requires SearchInv(g, state, path, result)
    requires path != [] && forall v :: v in deps ==> v in g.adj[path[|path| - 1]]
    ensures var s := VisitDeps(g, deps, k, state, path, result);
            s.cycle.None? ==> && SearchInv(g, s.state, path, s.result)
                              && result <= s.result
                              && forall j :: k <= j < |deps| ==> deps[j] in s.result
    ensures var s := VisitDeps(g, deps, k, state, path, result);
            s.cycle.Some? ==> s.cycle.value.node in s.cycle.value.stack && IsCycle(g, CycleChain(s.cycle.value))
    decreases g.adj.Keys - state.Keys, 1, |deps| - k
  {
    if k < |deps| {
      VisitOfInv(g, deps[k], state, path, result);
      var s := VisitOf(g, deps[k], state, path, result);
      if s.cycle.None? {
        VisitDepsInv(g, deps, k + 1, s.state, path, s.result);
      }
    }
  }

  /** The loop over the keys ends with a topological order, or at a cycle. */
  lemma {:induction false} RootsFromInv(g: Graph, i: nat, state: map<TypeId, Mark>, result: seq<TypeId>)
    requires Valid(g) && i <= |g.keys|
    requires SearchInv(g, state, [], result)
    requires forall j :: 0 <= j < i ==> g.keys[j] in state
    ensures RootsFrom(g, i, state, result).Ok? ==> IsTopologicalOrder(g, RootsFrom(g, i, state, result).value)
    ensures RootsFrom(g, i, state, result).Err? ==>
            var d := RootsFrom(g, i, state, result).error;
            d.node in d.stack && IsCycle(g, CycleChain(d))
    decreases |g.keys| - i
  {
    if i == |g.keys| {
      forall u | u in g.adj
        ensures u in result
      {
        var j :| 0 <= j < |g.keys| && g.keys[j] == u;
      }
    } else {
      var node := g.keys[i];
      if node in state {
        RootsFromInv(g, i + 1, state, result);
      } else {
        VisitOfInv(g, node, state, [], result);
        var s := VisitOf(g, node, state, [], result);
        if s.cycle.None? {
          RootsFromInv(g, i + 1, s.state, s.result);
        }
      }
    }
  }

  /** The search succeeds exactly on an acyclic graph, with a topological
      order, and otherwise stops at a cycle of the graph. */
  lemma DfsOrderMeaning(g: Graph)
    requires Valid(g)
    ensures DfsOrder(g).Ok? ==> IsTopologicalOrder(g, DfsOrder(g).value)
    ensures DfsOrder(g).Err? ==> DfsOrder(g).error.node in DfsOrder(g).error.stack && IsCycle(g, CycleChain(DfsOrder(g).error))
    ensures DfsOrder(g).Ok? <==> Acyclic(g)
  {
    RootsFromInv(g, 0, map[], []);
    if DfsOrder(g).Ok? {
      TopologicalOrderIsAcyclic(g, DfsOrder(g).value);
    }
  }

  /** `Visit(node)`: state, path and result are passed in and the new state
      and result are handed back; the path comes back as it was, since
      every push is matched by a pop. */
  method Visit(g: Graph, node: TypeId, state: map<TypeId, Mark>, path: seq<TypeId>, result: seq<TypeId>)
    returns (state': map<TypeId, Mark>, result': seq<TypeId>, cycle: Option<Detected>)
    requires Valid(g) && node in g.adj
    ensures Search(state', result', cycle) == VisitOf(g, node, state, path, result)
    decreases g.adj.Keys - state.Keys
  {
    if node in state {
      if state[node] == Visiting {
        return state, result, Some(Detected(path, node));
      }
      return state, result, None;
    }
    state' := state[node := Visiting];
    ghost var start := state';
    var p := path + [node];
    result' := result;
    var deps := g.adj[node];
    var k := 0;
    while k < |deps|
      invariant k <= |deps|
      invariant state.Keys + {node} <= state'.Keys
      invariant VisitDeps(g, deps, k, state', p, result') == VisitDeps(g, deps, 0, start, p, result)
    {
      var c;
      state', result', c := Visit(g, deps[k], state', p, result');
      if c.Some? {
        return state', result', c;
      }
      k := k + 1;
    }
    state' := state'[node := Visited];
    result' := result' + [node];
    cycle := None;
  }

  /** `TopologicalSort`: roots are tried in key order; the outcome is the
      search's, so either every key comes after its dependencies, or the
      search stopped at a cycle. */
  method TopologicalSort(g: Graph) returns (r: Result<seq<TypeId>, Detected>)
    requires Valid(g)
    ensures r == DfsOrder(g)
    ensures r.Ok? ==> IsTopologicalOrder(g, r.value)
    ensures r.Err? ==> r.error.node in r.error.stack && IsCycle(g, CycleChain(r.error))
    ensures r.Ok? <==> Acyclic(g)
  {
    DfsOrderMeaning(g);
    var state: map<TypeId, Mark> := map[];
    var result: seq<TypeId> := [];
    var i := 0;
    while i < |g.keys|
      invariant i <= |g.keys|
      invariant RootsFrom(g, i, state, result) == DfsOrder(g)
    {
      var node := g.keys[i];
      if node !in state {
        var cycle;
        state, result, cycle := Visit(g, node, state, [], result);
        if cycle.Some? {
          return Err(cycle.value);
        }
      }
      i := i + 1;
    }
    return Ok(result);
  }

  /** A graph with a topological order has no cycle. */
  lemma TopologicalOrderIsAcyclic(g: Graph, r: seq<TypeId>)
    requires IsTopologicalOrder(g, r)
    ensures Acyclic(g)
  {
    forall c | IsCycle(g, c)
      ensures false
    {
      PathGoesBackInOrder(g, r, c);
    }
  }

  /** Along a walk of at least one edge, the position in a topological order
      strictly decreases from the first node to the last. */
  lemma {:induction false} PathGoesBackInOrder(g: Graph, r: seq<TypeId>, p: seq<TypeId>)
    requires IsTopologicalOrder(g, r)
    requires IsPath(g, p) && |p| >= 2
    ensures IndexOf(r, p[|p| - 1]) < IndexOf(r, p[0])
  {
    EdgeGoesBackInOrder(g, r, p[0], p[1]);
    if |p| > 2 {
      var q := p[1..];
      assert IsPath(g, q) by {
        assert forall i :: 0 <= i < |q| ==> q[i] == p[i + 1];
      }
      PathGoesBackInOrder(g, r, q);
    }
  }

  /** A dependency comes strictly earlier than its dependent. */
  lemma EdgeGoesBackInOrder(g: Graph, r: seq<TypeId>, u: TypeId, v: TypeId)
    requires IsTopologicalOrder(g, r)
    requires u in g.adj && v in g.adj[u]
    ensures IndexOf(r, v) < IndexOf(r, u)
  {
    var i := IndexOf(r, u);
    assert v in r[..i];
    var j :| 0 <= j < i && r[..i][j] == v;
    assert r[j] == v;
  }
}

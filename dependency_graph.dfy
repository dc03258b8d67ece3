/** The dependency graph of steps 3.1 to 3.6: its nodes are the service and
    repository classes, the configuration classes and the bean return types;
    each node depends on what the parameters of its greediest constructor
    (or of its `[Bean]` methods) expand to, and a bean return type also
    depends on the configuration that declares the bean. */
module DependencyGraph {
  import opened Wrappers
  import opened Seqs
  import opened Reflection
  import opened ContractIndex
  import opened TopologicalSort

  /** `ExpandParamToDependencyTypes`: `IEnumerable<T>` depends on every
      implementation of `T`, an interface on every implementation of
      itself, and any other type on itself. */
  function Expand(meta: Metadata, index: map<TypeId, seq<TypeId>>, paramType: TypeId): seq<TypeId>
  {
    match meta(paramType).enumerableOf
    case Some(t) => if t in index then index[t] else []
    case None =>
      if meta(paramType).isInterface then
        if paramType in index && |index[paramType]| > 0 then index[paramType] else []
      else [paramType]
  }

  /** Over a contract index, expansion yields the implementers of the
      element type or of the interface, in discovery order. */
  lemma ExpandIsImplementers(meta: Metadata, impls: seq<TypeId>, index: map<TypeId, seq<TypeId>>, p: TypeId)
    requires IsContractIndex(meta, impls, index)
    ensures meta(p).enumerableOf.Some? ==>
      Expand(meta, index, p) == ImplementersOf(meta, impls, meta(p).enumerableOf.value)
    ensures meta(p).enumerableOf.None? && meta(p).isInterface ==>
      Expand(meta, index, p) == ImplementersOf(meta, impls, p)
    ensures meta(p).enumerableOf.None? && !meta(p).isInterface ==> Expand(meta, index, p) == [p]
  {
    assert Lookup(index, p) == ImplementersOf(meta, impls, p);
    if meta(p).enumerableOf.Some? {
      assert Lookup(index, meta(p).enumerableOf.value) == ImplementersOf(meta, impls, meta(p).enumerableOf.value);
    }
  }

  /** What a parameter of type `p` makes its owner depend on: for a
      collection or an interface, exactly the discovered classes whose first
      interface is the element type or the interface; otherwise `p` itself. */
  lemma ExpandMember(meta: Metadata, impls: seq<TypeId>, index: map<TypeId, seq<TypeId>>, p: TypeId, d: TypeId)
    requires IsContractIndex(meta, impls, index)
    ensures d in Expand(meta, index, p) <==>
      if meta(p).enumerableOf.Some? then d in impls && FirstInterface(meta, d) == meta(p).enumerableOf
      else if meta(p).isInterface then d in impls && FirstInterface(meta, d) == Some(p)
      else d == p
  {
    ExpandIsImplementers(meta, impls, index, p);
    if meta(p).enumerableOf.Some? {
      ImplementersOfMember(meta, impls, meta(p).enumerableOf.value, d);
    } else {
      ImplementersOfMember(meta, impls, p, d);
    }
  }

  /** `PickGreediestCtor`: the position of the first constructor with the
      most parameters (`OrderByDescending` is stable), or none when there is
      no public constructor. */
  function PickGreediestCtor(ctors: seq<seq<TypeId>>): (r: Option<nat>)
    ensures r.None? <==> ctors == []
    ensures r.Some? ==> r.value < |ctors|
    ensures r.Some? ==> forall j :: 0 <= j < |ctors| ==> |ctors[j]| <= |ctors[r.value]|
    ensures r.Some? ==> forall j :: 0 <= j < r.value ==> |ctors[j]| < |ctors[r.value]|
  {
    if ctors == [] then None
    else
      var best := PickGreediestCtor(ctors[..|ctors| - 1]);
      assert forall j :: 0 <= j < |ctors| - 1 ==> ctors[..|ctors| - 1][j] == ctors[j];
      if best.Some? && |ctors[|ctors| - 1]| <= |ctors[best.value]| then best
      else Some(|ctors| - 1)
  }

  /** The expansions of a parameter list, one after the other. */
  function ParamDependencies(meta: Metadata, index: map<TypeId, seq<TypeId>>, params: seq<TypeId>): seq<TypeId>
  {
    if params == [] then []
    else ParamDependencies(meta, index, params[..|params| - 1]) + Expand(meta, index, params[|params| - 1])
  }

  lemma {:induction false} ParamDependenciesMember(meta: Metadata, index: map<TypeId, seq<TypeId>>, params: seq<TypeId>, d: TypeId)
    ensures d in ParamDependencies(meta, index, params) <==>
      exists j :: 0 <= j < |params| && d in Expand(meta, index, params[j])
  {
    if params != [] {
      var init := params[..|params| - 1];
      ParamDependenciesMember(meta, index, init, d);
      assert forall j :: 0 <= j < |init| ==> init[j] == params[j];
    }
  }

  /** The expansions of the parameters of the greediest constructor of `t`;
      nothing when it has no constructor. */
  function CtorDependencies(meta: Metadata, index: map<TypeId, seq<TypeId>>, t: TypeId): seq<TypeId>
  {
    match PickGreediestCtor(meta(t).ctors)
    case None => []
    case Some(i) => ParamDependencies(meta, index, meta(t).ctors[i])
  }

  /** The elements of `xs` that are graph nodes (`allGraphNodes.Contains`). */
  function KeepNodes(nodes: seq<TypeId>, xs: seq<TypeId>): seq<TypeId>
  {
    if xs == [] then []
    else KeepNodes(nodes, xs[..|xs| - 1]) + (if xs[|xs| - 1] in nodes then [xs[|xs| - 1]] else [])
  }

  lemma {:induction false} KeepNodesMember(nodes: seq<TypeId>, xs: seq<TypeId>, x: TypeId)
    ensures x in KeepNodes(nodes, xs) <==> x in xs && x in nodes
  {
    if xs != [] {
      var init := xs[..|xs| - 1];
      KeepNodesMember(nodes, init, x);
      assert xs == init + [xs[|xs| - 1]];
    }
  }

  lemma KeepNodesSnoc(nodes: seq<TypeId>, xs: seq<TypeId>, x: TypeId)
    ensures KeepNodes(nodes, xs + [x]) == KeepNodes(nodes, xs) + (if x in nodes then [x] else [])
  {
    assert (xs + [x])[..|xs|] == xs;
  }

  lemma {:induction false} KeepNodesConcat(nodes: seq<TypeId>, a: seq<TypeId>, b: seq<TypeId>)
    ensures KeepNodes(nodes, a + b) == KeepNodes(nodes, a) + KeepNodes(nodes, b)
  {
    if b == [] {
      assert a + b == a;
    } else {
      var init := b[..|b| - 1];
      var x := b[|b| - 1];
      assert b == init + [x];
      assert a + b == (a + init) + [x];
      KeepNodesSnoc(nodes, a + init, x);
      KeepNodesSnoc(nodes, init, x);
      KeepNodesConcat(nodes, a, init);
    }
  }

  /** The edges that steps 3.4 and 3.5 add from `u`, for the classes `ts`
      taken in order. */
  function CtorEdges(meta: Metadata, index: map<TypeId, seq<TypeId>>, nodes: seq<TypeId>, ts: seq<TypeId>, u: TypeId): seq<TypeId>
  {
    if ts == [] then []
    else
      var t := ts[|ts| - 1];
      CtorEdges(meta, index, nodes, ts[..|ts| - 1], u) +
        (if t == u then KeepNodes(nodes, CtorDependencies(meta, index, t)) else [])
  }

  /** The edges that step 3.6 adds from `u`: for each bean returning `u`,
      its configuration, then the graph nodes its parameters expand to. */
  function BeanEdges(meta: Metadata, index: map<TypeId, seq<TypeId>>, nodes: seq<TypeId>, beans: seq<BeanMeta>, u: TypeId): seq<TypeId>
  {
    if beans == [] then []
    else
      var b := beans[|beans| - 1];
      BeanEdges(meta, index, nodes, beans[..|beans| - 1], u) +
        (if b.ReturnType() == u
         then [b.configurationType] + KeepNodes(nodes, ParamDependencies(meta, index, b.beanMethod.params))
         else [])
  }

  /** `beanMethods.Select(b => b.ReturnType)`. */
  function ReturnTypes(beans: seq<BeanMeta>): (r: seq<TypeId>)
    ensures |r| == |beans|
    ensures forall i :: 0 <= i < |beans| ==> r[i] == beans[i].ReturnType()
  {
    if beans == [] then [] else ReturnTypes(beans[..|beans| - 1]) + [beans[|beans| - 1].ReturnType()]
  }

  /** The nodes in the order the three node loops add them. */
  function GraphNodes(comps: seq<TypeId>, cfgs: seq<TypeId>, beans: seq<BeanMeta>): seq<TypeId>
  {
    Dedup(comps + cfgs + Dedup(ReturnTypes(beans)))
  }

  /** Every edge out of `u`, in the order the three edge loops add them. */
  function OutEdges(meta: Metadata, index: map<TypeId, seq<TypeId>>, comps: seq<TypeId>, cfgs: seq<TypeId>, beans: seq<BeanMeta>, u: TypeId): seq<TypeId>
  {
    var nodes := GraphNodes(comps, cfgs, beans);
    CtorEdges(meta, index, nodes, comps, u) + CtorEdges(meta, index, nodes, cfgs, u) + BeanEdges(meta, index, nodes, beans, u)
  }

  /** The graph that steps 3.1 to 3.6 build: each node's dependencies are its
      edges without repetitions, in the order they were first added. */
  function DependencyGraphOf(meta: Metadata, index: map<TypeId, seq<TypeId>>, comps: seq<TypeId>, cfgs: seq<TypeId>, beans: seq<BeanMeta>): Graph
  {
    var nodes := GraphNodes(comps, cfgs, beans);
    Graph(nodes, map u | u in nodes :: Dedup(OutEdges(meta, index, comps, cfgs, beans, u)))
  }

  /** Steps 3.1 to 3.3 for one list: each type becomes a key with an empty
      dependency set. */
  method AddNodes(keys: seq<TypeId>, adj: map<TypeId, seq<TypeId>>, ts: seq<TypeId>)
    returns (keys': seq<TypeId>, adj': map<TypeId, seq<TypeId>>)
    ensures keys' == Extend(keys, ts)
    ensures forall u :: u in adj' <==> u in adj || u in ts
    ensures forall u :: u in adj' ==> adj'[u] == if u in ts then [] else adj[u]
  {
    keys', adj' := keys, adj;
    var k := 0;
    while k < |ts|
      invariant k <= |ts|
      invariant keys' == Extend(keys, ts[..k])
      invariant forall u :: u in adj' <==> u in adj || u in ts[..k]
      invariant forall u :: u in adj' ==> adj'[u] == if u in ts[..k] then [] else adj[u]
    {
      assert ts[..k + 1][..k] == ts[..k];
      assert forall u :: u in ts[..k + 1] <==> u in ts[..k] || u == ts[k];
      keys' := AddIfAbsent(keys', ts[k]);
      adj' := adj'[ts[k] := []];
      k := k + 1;
    }
    assert ts[..k] == ts;
  }

  /** The innermost loop: each dependency that is a graph node is added to
      the dependency set `deps` of one node. */
  method AddDependencies(nodes: seq<TypeId>, deps: seq<TypeId>, candidates: seq<TypeId>)
    returns (deps': seq<TypeId>)
    ensures deps' == Extend(deps, KeepNodes(nodes, candidates))
  {
    deps' := deps;
    var k := 0;
    while k < |candidates|
      invariant k <= |candidates|
      invariant deps' == Extend(deps, KeepNodes(nodes, candidates[..k]))
    {
      var d := candidates[k];
      assert candidates[..k + 1] == candidates[..k] + [d];
      KeepNodesSnoc(nodes, candidates[..k], d);
      ExtendConcat(deps, KeepNodes(nodes, candidates[..k]), if d in nodes then [d] else []);
      if d in nodes {
        assert Extend(deps', [d]) == AddIfAbsent(deps', d) by {
          assert [d][..0] == [];
        }
        deps' := AddIfAbsent(deps', d);
      }
      k := k + 1;
    }
    assert candidates[..k] == candidates;
  }

  /** The loop over the parameters of a constructor or bean method. */
  method AddParamDependencies(meta: Metadata, index: map<TypeId, seq<TypeId>>, nodes: seq<TypeId>,
                              deps: seq<TypeId>, params: seq<TypeId>)
    returns (deps': seq<TypeId>)
    ensures deps' == Extend(deps, KeepNodes(nodes, ParamDependencies(meta, index, params)))
  {
    deps' := deps;
    var k := 0;
    while k < |params|
      invariant k <= |params|
      invariant deps' == Extend(deps, KeepNodes(nodes, ParamDependencies(meta, index, params[..k])))
    {
      ParamDependenciesStep(meta, index, nodes, deps, params, k);
      deps' := AddDependencies(nodes, deps', Expand(meta, index, params[k]));
      k := k + 1;
    }
    assert params[..k] == params;
  }

  lemma ParamDependenciesStep(meta: Metadata, index: map<TypeId, seq<TypeId>>, nodes: seq<TypeId>,
                              deps: seq<TypeId>, params: seq<TypeId>, k: nat)
    requires k < |params|
    ensures Extend(deps, KeepNodes(nodes, ParamDependencies(meta, index, params[..k + 1]))) ==
            Extend(Extend(deps, KeepNodes(nodes, ParamDependencies(meta, index, params[..k]))),
                   KeepNodes(nodes, Expand(meta, index, params[k])))
  {
    var done := ParamDependencies(meta, index, params[..k]);
    var expansion := Expand(meta, index, params[k]);
    assert params[..k + 1][..k] == params[..k];
    assert ParamDependencies(meta, index, params[..k + 1]) == done + expansion;
    KeepNodesConcat(nodes, done, expansion);
    ExtendConcat(deps, KeepNodes(nodes, done), KeepNodes(nodes, expansion));
  }

  /** One more class of a constructor-edge loop: only its own set grows. */
  lemma CtorEdgesSnoc(meta: Metadata, index: map<TypeId, seq<TypeId>>, nodes: seq<TypeId>, base: seq<TypeId>, ts: seq<TypeId>, t: TypeId, u: TypeId)
    ensures Extend(base, CtorEdges(meta, index, nodes, ts + [t], u)) ==
            if u == t then Extend(Extend(base, CtorEdges(meta, index, nodes, ts, u)), KeepNodes(nodes, CtorDependencies(meta, index, t)))
            else Extend(base, CtorEdges(meta, index, nodes, ts, u))
  {
    assert (ts + [t])[..|ts|] == ts;
    var extra := if t == u then KeepNodes(nodes, CtorDependencies(meta, index, t)) else [];
    ExtendConcat(base, CtorEdges(meta, index, nodes, ts, u), extra);
    assert CtorEdges(meta, index, nodes, ts, u) + [] == CtorEdges(meta, index, nodes, ts, u);
  }

  /** Steps 3.4 and 3.5: the constructor edges of each class of `ts`. */
  method AddCtorEdges(meta: Metadata, index: map<TypeId, seq<TypeId>>, nodes: seq<TypeId>,
                      adj: map<TypeId, seq<TypeId>>, ts: seq<TypeId>)
    returns (adj': map<TypeId, seq<TypeId>>)
    requires forall t :: t in ts ==> t in adj
    ensures adj'.Keys == adj.Keys
    ensures forall u :: u in adj ==> adj'[u] == Extend(adj[u], CtorEdges(meta, index, nodes, ts, u))
  {
    adj' := adj;
    var k := 0;
    while k < |ts|
      invariant k <= |ts|
      invariant adj'.Keys == adj.Keys
      invariant forall u :: u in adj ==> adj'[u] == Extend(adj[u], CtorEdges(meta, index, nodes, ts[..k], u))
    {
      var t := ts[k];
      assert ts[..k + 1] == ts[..k] + [t];
      forall u | u in adj {
        CtorEdgesSnoc(meta, index, nodes, adj[u], ts[..k], t, u);
      }
      var ctor := PickGreediestCtor(meta(t).ctors);
      if ctor.Some? {
        var deps := AddParamDependencies(meta, index, nodes, adj'[t], meta(t).ctors[ctor.value]);
        adj' := adj'[t := deps];
      } else {
        assert adj'[t] == Extend(adj'[t], []);
      }
      k := k + 1;
    }
    assert ts[..k] == ts;
  }

  /** One more bean of the bean-edge loop: only its return type's set grows. */
  lemma BeanEdgesSnoc(meta: Metadata, index: map<TypeId, seq<TypeId>>, nodes: seq<TypeId>, base: seq<TypeId>, beans: seq<BeanMeta>, b: BeanMeta, u: TypeId)
    ensures Extend(base, BeanEdges(meta, index, nodes, beans + [b], u)) ==
            if u == b.ReturnType()
            then Extend(AddIfAbsent(Extend(base, BeanEdges(meta, index, nodes, beans, u)), b.configurationType),
                        KeepNodes(nodes, ParamDependencies(meta, index, b.beanMethod.params)))
            else Extend(base, BeanEdges(meta, index, nodes, beans, u))
  {
    assert (beans + [b])[..|beans|] == beans;
    var before := BeanEdges(meta, index, nodes, beans, u);
    var deps := KeepNodes(nodes, ParamDependencies(meta, index, b.beanMethod.params));
    if u == b.ReturnType() {
      ExtendConcat(base, before, [b.configurationType] + deps);
      ExtendConcat(Extend(base, before), [b.configurationType], deps);
      assert [b.configurationType][..0] == [];
    } else {
      assert before + [] == before;
    }
  }

  /** Step 3.6: each bean's return type depends on its configuration and on
      what its parameters expand to. */
  method AddBeanEdges(meta: Metadata, index: map<TypeId, seq<TypeId>>, nodes: seq<TypeId>,
                      adj: map<TypeId, seq<TypeId>>, beans: seq<BeanMeta>)
    returns (adj': map<TypeId, seq<TypeId>>)
    requires forall i :: 0 <= i < |beans| ==> beans[i].ReturnType() in adj
    ensures adj'.Keys == adj.Keys
    ensures forall u :: u in adj ==> adj'[u] == Extend(adj[u], BeanEdges(meta, index, nodes, beans, u))
  {
    adj' := adj;
    var k := 0;
    while k < |beans|
      invariant k <= |beans|
      invariant adj'.Keys == adj.Keys
      invariant forall u :: u in adj ==> adj'[u] == Extend(adj[u], BeanEdges(meta, index, nodes, beans[..k], u))
    {
      var bm := beans[k];
      var ret := bm.ReturnType();
      assert beans[..k + 1] == beans[..k] + [bm];
      forall u | u in adj {
        BeanEdgesSnoc(meta, index, nodes, adj[u], beans[..k], bm, u);
      }
      var deps := AddIfAbsent(adj'[ret], bm.configurationType);
      deps := AddParamDependencies(meta, index, nodes, deps, bm.beanMethod.params);
      adj' := adj'[ret := deps];
      k := k + 1;
    }
    assert beans[..k] == beans;
  }

  /** The three node loops list the nodes in first-insertion order. */
  lemma NodeLoopsOrder(comps: seq<TypeId>, cfgs: seq<TypeId>, returnTypes: seq<TypeId>)
    ensures Extend(Extend(Extend([], comps), cfgs), returnTypes) == Dedup(comps + cfgs + returnTypes)
  {
    assert Dedup<TypeId>([]) == [];
    ExtendDedup([], comps);
    assert [] + comps == comps;
    ExtendDedup(comps, cfgs);
    ExtendDedup(comps + cfgs, returnTypes);
  }

  /** The three edge loops, started from an empty set, deduplicate the edges. */
  lemma EdgeLoopsOrder(e1: seq<TypeId>, e2: seq<TypeId>, e3: seq<TypeId>)
    ensures Extend(Extend(Extend([], e1), e2), e3) == Dedup(e1 + e2 + e3)
  {
    ExtendConcat([], e1, e2);
    ExtendConcat([], e1 + e2, e3);
    assert Dedup<TypeId>([]) == [];
    ExtendDedup([], e1 + e2 + e3);
    assert [] + (e1 + e2 + e3) == e1 + e2 + e3;
  }

  /** Steps 3.1 to 3.3: services and repositories, then configurations,
      then bean return types become keys with empty dependency sets. */
  method BuildNodes(comps: seq<TypeId>, cfgs: seq<TypeId>, beans: seq<BeanMeta>)
    returns (keys: seq<TypeId>, adj: map<TypeId, seq<TypeId>>)
    ensures keys == GraphNodes(comps, cfgs, beans)
    ensures forall u :: u in adj <==> u in keys
    ensures forall u :: u in adj ==> adj[u] == []
  {
    keys, adj := AddNodes([], map[], comps);
    keys, adj := AddNodes(keys, adj, cfgs);
    var beanReturnTypes := Dedup(ReturnTypes(beans));
    keys, adj := AddNodes(keys, adj, beanReturnTypes);
    NodeLoopsOrder(comps, cfgs, beanReturnTypes);
    assert forall u :: u in keys <==> u in comps + cfgs + beanReturnTypes;
  }

  /** The adjacency the three edge loops leave, started from empty sets on
      the graph nodes, is that of the dependency graph. */
  lemma EdgeLoopsGiveGraph(meta: Metadata, index: map<TypeId, seq<TypeId>>, comps: seq<TypeId>, cfgs: seq<TypeId>, beans: seq<BeanMeta>,
                           adj0: map<TypeId, seq<TypeId>>, adj1: map<TypeId, seq<TypeId>>,
                           adj2: map<TypeId, seq<TypeId>>, adj3: map<TypeId, seq<TypeId>>)
    requires forall u :: u in adj0 <==> u in GraphNodes(comps, cfgs, beans)
    requires forall u :: u in adj0 ==> adj0[u] == []
    requires adj1.Keys == adj0.Keys && adj2.Keys == adj1.Keys && adj3.Keys == adj2.Keys
    requires forall u :: u in adj0 ==> adj1[u] == Extend(adj0[u], CtorEdges(meta, index, GraphNodes(comps, cfgs, beans), comps, u))
    requires forall u :: u in adj1 ==> adj2[u] == Extend(adj1[u], CtorEdges(meta, index, GraphNodes(comps, cfgs, beans), cfgs, u))
    requires forall u :: u in adj2 ==> adj3[u] == Extend(adj2[u], BeanEdges(meta, index, GraphNodes(comps, cfgs, beans), beans, u))
    ensures adj3 == DependencyGraphOf(meta, index, comps, cfgs, beans).adj
  {
    forall u | u in adj3
      ensures adj3[u] == Dedup(OutEdges(meta, index, comps, cfgs, beans, u))
    {
      EdgeLoopsOrderAt(meta, index, comps, cfgs, beans, u, adj0[u], adj1[u], adj2[u], adj3[u]);
    }
    AdjacencyExtensional(meta, index, comps, cfgs, beans, adj3);
  }

  lemma EdgeLoopsOrderAt(meta: Metadata, index: map<TypeId, seq<TypeId>>, comps: seq<TypeId>, cfgs: seq<TypeId>, beans: seq<BeanMeta>,
                         u: TypeId, s0: seq<TypeId>, s1: seq<TypeId>, s2: seq<TypeId>, s3: seq<TypeId>)
    requires s0 == []
    requires s1 == Extend(s0, CtorEdges(meta, index, GraphNodes(comps, cfgs, beans), comps, u))
    requires s2 == Extend(s1, CtorEdges(meta, index, GraphNodes(comps, cfgs, beans), cfgs, u))
    requires s3 == Extend(s2, BeanEdges(meta, index, GraphNodes(comps, cfgs, beans), beans, u))
    ensures s3 == Dedup(OutEdges(meta, index, comps, cfgs, beans, u))
  {
    var nodes := GraphNodes(comps, cfgs, beans);
    EdgeLoopsOrder(CtorEdges(meta, index, nodes, comps, u), CtorEdges(meta, index, nodes, cfgs, u),
                   BeanEdges(meta, index, nodes, beans, u));
  }

  lemma AdjacencyExtensional(meta: Metadata, index: map<TypeId, seq<TypeId>>, comps: seq<TypeId>, cfgs: seq<TypeId>, beans: seq<BeanMeta>,
                             adj: map<TypeId, seq<TypeId>>)
    requires forall u :: u in adj <==> u in GraphNodes(comps, cfgs, beans)
    requires forall u :: u in adj ==> adj[u] == Dedup(OutEdges(meta, index, comps, cfgs, beans, u))
    ensures adj == DependencyGraphOf(meta, index, comps, cfgs, beans).adj
  {
  }

  /** Steps 3.1 to 3.6. */
  method BuildGraph(meta: Metadata, index: map<TypeId, seq<TypeId>>, comps: seq<TypeId>, cfgs: seq<TypeId>, beans: seq<BeanMeta>)
    returns (g: Graph)
    ensures g == DependencyGraphOf(meta, index, comps, cfgs, beans)
  {
    var keys, adj := BuildNodes(comps, cfgs, beans);
    assert forall i :: 0 <= i < |beans| ==> beans[i].ReturnType() in adj by {
      assert forall i :: 0 <= i < |beans| ==> ReturnTypes(beans)[i] in ReturnTypes(beans);
    }
    var adj1 := AddCtorEdges(meta, index, keys, adj, comps);
    var adj2 := AddCtorEdges(meta, index, keys, adj1, cfgs);
    var adj3 := AddBeanEdges(meta, index, keys, adj2, beans);
    g := Graph(keys, adj3);
    EdgeLoopsGiveGraph(meta, index, comps, cfgs, beans, adj, adj1, adj2, adj3);
  }

  /** A constructor edge leaves `u` exactly when `u` is one of the classes
      and the target is a graph node its greediest constructor needs. */
  lemma {:induction false} CtorEdgesMember(meta: Metadata, index: map<TypeId, seq<TypeId>>, nodes: seq<TypeId>, ts: seq<TypeId>, u: TypeId, v: TypeId)
    ensures v in CtorEdges(meta, index, nodes, ts, u) <==>
            u in ts && v in nodes && v in CtorDependencies(meta, index, u)
  {
    if ts != [] {
      var init := ts[..|ts| - 1];
      CtorEdgesMember(meta, index, nodes, init, u, v);
      KeepNodesMember(nodes, CtorDependencies(meta, index, u), v);
      assert ts == init + [ts[|ts| - 1]];
    }
  }

  /** A bean edge leaves `u` exactly when some bean returns `u` and the
      target is its configuration or a graph node its parameters need. */
  lemma {:induction false} BeanEdgesMember(meta: Metadata, index: map<TypeId, seq<TypeId>>, nodes: seq<TypeId>, beans: seq<BeanMeta>, u: TypeId, v: TypeId)
    ensures v in BeanEdges(meta, index, nodes, beans, u) <==>
            exists i :: 0 <= i < |beans| && BeanNeeds(meta, index, nodes, beans[i], u, v)
  {
    if beans != [] {
      var init := beans[..|beans| - 1];
      var b := beans[|beans| - 1];
      BeanEdgesMember(meta, index, nodes, init, u, v);
      KeepNodesMember(nodes, ParamDependencies(meta, index, b.beanMethod.params), v);
      assert forall i :: 0 <= i < |init| ==> init[i] == beans[i];
      if BeanNeeds(meta, index, nodes, b, u, v) {
        assert BeanNeeds(meta, index, nodes, beans[|beans| - 1], u, v);
      }
    }
  }

  /** Bean `b` returns `u` and makes it depend on `v`. */
  ghost predicate BeanNeeds(meta: Metadata, index: map<TypeId, seq<TypeId>>, nodes: seq<TypeId>, b: BeanMeta, u: TypeId, v: TypeId)
  {
    && b.ReturnType() == u
    && (v == b.configurationType || (v in nodes && v in ParamDependencies(meta, index, b.beanMethod.params)))
  }

  /** Since every bean is declared by a discovered configuration, the graph
      is well formed: its keys are distinct and every dependency is a key, so
      `Visit` can look up every dependency it meets. */
  lemma DependencyGraphValid(meta: Metadata, index: map<TypeId, seq<TypeId>>, comps: seq<TypeId>, cfgs: seq<TypeId>, beans: seq<BeanMeta>)
    requires forall i :: 0 <= i < |beans| ==> beans[i].configurationType in cfgs
    ensures Valid(DependencyGraphOf(meta, index, comps, cfgs, beans))
  {
    var g := DependencyGraphOf(meta, index, comps, cfgs, beans);
    var nodes := GraphNodes(comps, cfgs, beans);
    forall u, v | u in g.adj && v in g.adj[u]
      ensures v in g.adj
    {
      var c1 := CtorEdges(meta, index, nodes, comps, u);
      var c2 := CtorEdges(meta, index, nodes, cfgs, u);
      var b := BeanEdges(meta, index, nodes, beans, u);
      assert v in c1 + c2 + b;
      CtorEdgesMember(meta, index, nodes, comps, u, v);
      CtorEdgesMember(meta, index, nodes, cfgs, u, v);
      BeanEdgesMember(meta, index, nodes, beans, u, v);
      if v in b {
        var i :| 0 <= i < |beans| && BeanNeeds(meta, index, nodes, beans[i], u, v);
        assert beans[i].configurationType in comps + cfgs + Dedup(ReturnTypes(beans));
      }
    }
  }

  /** What an edge of the graph means: `u` depends on `v` exactly when `u` is
      a service, repository or configuration class whose greediest
      constructor needs the graph node `v`, or some bean returning `u` is
      declared by `v` or needs the graph node `v`. */
  lemma DependencyGraphEdge(meta: Metadata, index: map<TypeId, seq<TypeId>>, comps: seq<TypeId>, cfgs: seq<TypeId>, beans: seq<BeanMeta>, u: TypeId, v: TypeId)
    ensures var g := DependencyGraphOf(meta, index, comps, cfgs, beans);
            u in g.adj && v in g.adj[u] <==>
              && u in g.keys
              && ( ((u in comps || u in cfgs) && v in g.keys && v in CtorDependencies(meta, index, u))
                 || exists i :: 0 <= i < |beans| && BeanNeeds(meta, index, g.keys, beans[i], u, v))
  {
    var nodes := GraphNodes(comps, cfgs, beans);
    CtorEdgesMember(meta, index, nodes, comps, u, v);
    CtorEdgesMember(meta, index, nodes, cfgs, u, v);
    BeanEdgesMember(meta, index, nodes, beans, u, v);
  }

  /** Over a contract index, a parameter list makes its owner depend on `v`
      exactly when some parameter is a collection of, or an interface
      implemented first by, the discovered class `v`, or is the type `v`
      itself. */
  lemma ParamDependenciesMeaning(meta: Metadata, impls: seq<TypeId>, index: map<TypeId, seq<TypeId>>, params: seq<TypeId>, v: TypeId)
    requires IsContractIndex(meta, impls, index)
    ensures v in ParamDependencies(meta, index, params) <==>
            exists j :: 0 <= j < |params| && Needs(meta, impls, params[j], v)
  {
    ParamDependenciesMember(meta, index, params, v);
    forall j | 0 <= j < |params|
      ensures v in Expand(meta, index, params[j]) <==> Needs(meta, impls, params[j], v)
    {
      ExpandMember(meta, impls, index, params[j], v);
    }
  }

  /** A parameter of type `p` needs `v`. */
  ghost predicate Needs(meta: Metadata, impls: seq<TypeId>, p: TypeId, v: TypeId)
  {
    if meta(p).enumerableOf.Some? then v in impls && FirstInterface(meta, v) == meta(p).enumerableOf
    else if meta(p).isInterface then v in impls && FirstInterface(meta, v) == Some(p)
    else v == p
  }
}

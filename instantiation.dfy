/** Step 5: the graph nodes are created in the order the topological sort
    returned. A configuration is created and kept, but not registered; a
    service or repository is created and registered under its first
    interface, or under itself; a bean return type is produced by invoking
    every bean method that returns it. */
module Instantiation {
  import opened Wrappers
  import opened Seqs
  import opened Reflection
  import opened ContractIndex
  import opened DependencyGraph
  import opened TopologicalSort
  import opened Resolution

  /** A `ServiceDescriptor` added to the service collection. */
  datatype Descriptor = Descriptor(serviceType: TypeId, lifetime: Lifetime, instance: Instance)

  /** What discovery found: the service and repository classes, the
      configuration classes and the bean methods, each in discovery order. */
  datatype Discovery = Discovery(comps: seq<TypeId>, cfgs: seq<TypeId>, beans: seq<BeanMeta>)

  /** The dictionaries and the service collection as the loop leaves them. */
  datatype State = State(reg: Registry, services: seq<Descriptor>)

  /** Where the loop stopped: the state at that point and, when it stopped
      early, the exception. The service collection is the caller's and is
      changed in place, so what was registered before an exception stays. */
  datatype Outcome = Outcome(st: State, failure: Option<Error>)

  /** The exceptions of the instantiation loop: resolution errors, a
      missing constructor and a bean method returning null. */
  predicate CreationError(e: Error)
  {
    ResolutionError(e) || e.MissingConstructor? || e.NullBean?
  }

  /** The registrar's own records only grow: no configuration or concrete
      type loses its instance (a later bean of the same class may replace
      it), and the service collection only gains entries at its end. */
  ghost predicate Grows(st: State, st': State)
  {
    && st.reg.configInstances.Keys <= st'.reg.configInstances.Keys
    && st.reg.createdConcrete.Keys <= st'.reg.createdConcrete.Keys
    && st.services <= st'.services
  }

  /** `RegisterInterfaceOrSelfInstance`: the first interface, or the class. */
  function ServiceTypeOf(meta: Metadata, t: TypeId): (r: TypeId)
    ensures r == t || (meta(t).interfaces != [] && r == meta(t).interfaces[0])
    ensures meta(t).interfaces == [] ==> r == t
  {
    if FirstInterface(meta, t).Some? then FirstInterface(meta, t).value else t
  }

  /** The lifetime of the `[Service]` or `[Repository]` attribute; singleton
      when there is none. */
  function LifetimeOf(meta: Metadata, t: TypeId): Lifetime
  {
    if meta(t).service.Some? then meta(t).service.value else Singleton
  }

  /** `x` added to the list stored under `k`, which is created when missing. */
  function Append(m: map<TypeId, seq<Instance>>, k: TypeId, x: Instance): map<TypeId, seq<Instance>>
  {
    m[k := Lookup(m, k) + [x]]
  }

  /** A created service or repository: registered, remembered as a concrete
      instance and listed under its first interface. */
  function RegisterComponent(meta: Metadata, st: State, node: TypeId, inst: Instance): (st': State)
    ensures Grows(st, st')
    ensures st'.reg.createdConcrete == st.reg.createdConcrete[node := inst]
    ensures FirstInterface(meta, node).Some? ==>
              Lookup(st'.reg.instancesByContract, FirstInterface(meta, node).value)
              == Lookup(st.reg.instancesByContract, FirstInterface(meta, node).value) + [inst]
    ensures forall k: TypeId :: FirstInterface(meta, node) != Some(k) ==>
              Lookup(st'.reg.instancesByContract, k) == Lookup(st.reg.instancesByContract, k)
    ensures st'.reg.configInstances == st.reg.configInstances && st'.reg.beansByReturnType == st.reg.beansByReturnType
    ensures st'.services == st.services + [Descriptor(ServiceTypeOf(meta, node), LifetimeOf(meta, node), inst)]
  {
    var reg := st.reg.(createdConcrete := st.reg.createdConcrete[node := inst]);
    var fi := FirstInterface(meta, node);
    State(if fi.Some? then reg.(instancesByContract := Append(reg.instancesByContract, fi.value, inst)) else reg,
          st.services + [Descriptor(ServiceTypeOf(meta, node), LifetimeOf(meta, node), inst)])
  }

  /** A produced bean: registered as a singleton of its return type, listed
      as a bean of that type, and also listed under that contract when it is
      an interface, or remembered as its concrete instance otherwise. */
  function StoreBean(meta: Metadata, st: State, ret: TypeId, bean: Instance): (st': State)
    ensures Grows(st, st')
    ensures Lookup(st'.reg.beansByReturnType, ret) == Lookup(st.reg.beansByReturnType, ret) + [bean]
    ensures forall k: TypeId :: k != ret ==> Lookup(st'.reg.beansByReturnType, k) == Lookup(st.reg.beansByReturnType, k)
    ensures st'.reg.configInstances == st.reg.configInstances
    ensures meta(ret).isInterface ==>
              && Lookup(st'.reg.instancesByContract, ret) == Lookup(st.reg.instancesByContract, ret) + [bean]
              && (forall k: TypeId :: k != ret ==> Lookup(st'.reg.instancesByContract, k) == Lookup(st.reg.instancesByContract, k))
              && st'.reg.createdConcrete == st.reg.createdConcrete
    ensures !meta(ret).isInterface ==>
              && st'.reg.createdConcrete == st.reg.createdConcrete[ret := bean]
              && st'.reg.instancesByContract == st.reg.instancesByContract
    ensures st'.services == st.services + [Descriptor(ret, Singleton, bean)]
  {
    var reg := st.reg.(beansByReturnType := Append(st.reg.beansByReturnType, ret, bean));
    State(if meta(ret).isInterface then reg.(instancesByContract := Append(reg.instancesByContract, ret, bean))
          else reg.(createdConcrete := reg.createdConcrete[ret := bean]),
          st.services + [Descriptor(ret, Singleton, bean)])
  }

  /** One bean method: its configuration (created on demand when missing),
      its arguments, then the call, which must not return null. */
  function Produce(meta: Metadata, host: Host, st: State, bm: BeanMeta): (o: Outcome)
    ensures Grows(st, o.st)
    ensures o.failure.Some? ==> CreationError(o.failure.value)
    ensures o.failure.Some? ==> o.st.services == st.services
    ensures o.failure.None? ==> && |o.st.services| == |st.services| + 1
                                && o.st.services == st.services + [Descriptor(bm.ReturnType(), Singleton, o.st.services[|st.services|].instance)]
    ensures bm.configurationType in st.reg.configInstances && o.failure.None? ==>
              o.st.reg.configInstances == st.reg.configInstances
    ensures o.failure.None? ==>
              && bm.configurationType in o.st.reg.configInstances
              && ResolveAll(meta, st.reg, host, bm.beanMethod.params).Ok?
              && host.invoke(o.st.reg.configInstances[bm.configurationType], bm.beanMethod,
                             ResolveAll(meta, st.reg, host, bm.beanMethod.params).value)
                 == Some(o.st.services[|st.services|].instance)
  {
    var ct := bm.configurationType;
    var cfg := if ct in st.reg.configInstances then Ok(st.reg.configInstances[ct]) else Creation(meta, st.reg, host, ct);
    if cfg.Err? then Outcome(st, Some(cfg.error))
    else
      var st1 := if ct in st.reg.configInstances then st
                 else st.(reg := st.reg.(configInstances := st.reg.configInstances[ct := cfg.value]));
      ResolveAllIgnoresConfigurations(meta, st.reg, host, bm.beanMethod.params, st1.reg.configInstances);
      var args := ResolveAll(meta, st1.reg, host, bm.beanMethod.params);
      if args.Err? then Outcome(st1, Some(args.error))
      else
        var bean := host.invoke(cfg.value, bm.beanMethod, args.value);
        if bean.None? then Outcome(st1, Some(NullBean(ct, bm.beanMethod.name)))
        else Outcome(StoreBean(meta, st1, bm.ReturnType(), bean.value), None)
  }

  /** The bean methods in order, stopping at the first failure. */
  function ProduceAll(meta: Metadata, host: Host, st: State, producers: seq<BeanMeta>): (o: Outcome)
    ensures Grows(st, o.st)
    ensures o.failure.Some? ==> CreationError(o.failure.value)
  {
    if producers == [] then Outcome(st, None)
    else
      var o := ProduceAll(meta, host, st, producers[..|producers| - 1]);
      if o.failure.Some? then o else Produce(meta, host, o.st, producers[|producers| - 1])
  }

  /** The bean methods returning `node`, in discovery order. */
  function Producers(beans: seq<BeanMeta>, node: TypeId): seq<BeanMeta>
  {
    Filter((b: BeanMeta) => b.ReturnType() == node, beans)
  }

  /** One pass of the loop over the ordered nodes. */
  function Step(meta: Metadata, host: Host, disc: Discovery, st: State, node: TypeId): (o: Outcome)
    ensures Grows(st, o.st)
    ensures o.failure.Some? ==> CreationError(o.failure.value)
  {
    if node in disc.cfgs then
      var c := Creation(meta, st.reg, host, node);
      if c.Err? then Outcome(st, Some(c.error))
      else Outcome(st.(reg := st.reg.(configInstances := st.reg.configInstances[node := c.value])), None)
    else if node in disc.comps then
      var c := Creation(meta, st.reg, host, node);
      if c.Err? then Outcome(st, Some(c.error)) else Outcome(RegisterComponent(meta, st, node, c.value), None)
    else if node in ReturnTypes(disc.beans) then ProduceAll(meta, host, st, Producers(disc.beans, node))
    else Outcome(st, None)
  }

  /** The loop over the ordered nodes, stopping at the first exception. */
  function Instantiation(meta: Metadata, host: Host, disc: Discovery, st: State, ordered: seq<TypeId>): (o: Outcome)
    ensures Grows(st, o.st)
    ensures o.failure.Some? ==> CreationError(o.failure.value)
  {
    if ordered == [] then Outcome(st, None)
    else
      var o := Instantiation(meta, host, disc, st, ordered[..|ordered| - 1]);
      if o.failure.Some? then o else Step(meta, host, disc, o.st, ordered[|ordered| - 1])
  }

  /** Once a prefix of the bean methods fails, all of them fail the same way. */
  lemma {:induction false} ProduceAllPrefixError(meta: Metadata, host: Host, st: State, producers: seq<BeanMeta>, k: nat)
    requires k <= |producers|
    requires ProduceAll(meta, host, st, producers[..k]).failure.Some?
    ensures ProduceAll(meta, host, st, producers) == ProduceAll(meta, host, st, producers[..k])
    decreases |producers| - k
  {
    if k < |producers| {
      assert producers[..k + 1][..k] == producers[..k];
      ProduceAllPrefixError(meta, host, st, producers, k + 1);
    } else {
      assert producers[..k] == producers;
    }
  }

  /** One pass of the `foreach` over the bean methods returning one node. */
  method RunProduce(meta: Metadata, host: Host, cur: State, bm: BeanMeta) returns (o: Outcome)
    ensures o == Produce(meta, host, cur, bm)
  {
    var ct := bm.configurationType;
    var st1 := cur;
    var cfg;
    if ct in cur.reg.configInstances {
      cfg := cur.reg.configInstances[ct];
    } else {
      var created := CreateByCtor(meta, cur.reg, host, ct);
      if created.Err? {
        return Outcome(cur, Some(created.error));
      }
      cfg := created.value;
      st1 := cur.(reg := cur.reg.(configInstances := cur.reg.configInstances[ct := cfg]));
    }
    var args := ResolveArguments(meta, st1.reg, host, bm.beanMethod.params);
    if args.Err? {
      return Outcome(st1, Some(args.error));
    }
    var bean := host.invoke(cfg, bm.beanMethod, args.value);
    if bean.None? {
      return Outcome(st1, Some(NullBean(ct, bm.beanMethod.name)));
    }
    return Outcome(StoreBean(meta, st1, bm.ReturnType(), bean.value), None);
  }

  /** The `foreach` over the bean methods returning one node. */
  method ProduceBeans(meta: Metadata, host: Host, st: State, producers: seq<BeanMeta>) returns (o: Outcome)
    ensures o == ProduceAll(meta, host, st, producers)
  {
    var cur := st;
    var k := 0;
    while k < |producers|
      invariant k <= |producers|
      invariant ProduceAll(meta, host, st, producers[..k]) == Outcome(cur, None)
    {
      assert producers[..k + 1][..k] == producers[..k];
      var step := RunProduce(meta, host, cur, producers[k]);
      if step.failure.Some? {
        ProduceAllPrefixError(meta, host, st, producers, k + 1);
        return step;
      }
      cur := step.st;
      k := k + 1;
    }
    assert producers[..k] == producers;
    return Outcome(cur, None);
  }

  /** Once a prefix of the nodes fails, the whole loop fails the same way. */
  lemma {:induction false} InstantiationPrefixError(meta: Metadata, host: Host, disc: Discovery, st: State, ordered: seq<TypeId>, k: nat)
    requires k <= |ordered|
    requires Instantiation(meta, host, disc, st, ordered[..k]).failure.Some?
    ensures Instantiation(meta, host, disc, st, ordered) == Instantiation(meta, host, disc, st, ordered[..k])
    decreases |ordered| - k
  {
    if k < |ordered| {
      assert ordered[..k + 1][..k] == ordered[..k];
      InstantiationPrefixError(meta, host, disc, st, ordered, k + 1);
    } else {
      assert ordered[..k] == ordered;
    }
  }

  /** One pass of the `foreach` over the ordered nodes. */
  method RunStep(meta: Metadata, host: Host, disc: Discovery, cur: State, node: TypeId) returns (o: Outcome)
    ensures o == Step(meta, host, disc, cur, node)
  {
    if node in disc.cfgs {
      var cfgInstance := CreateByCtor(meta, cur.reg, host, node);
      if cfgInstance.Err? {
        return Outcome(cur, Some(cfgInstance.error));
      }
      return Outcome(cur.(reg := cur.reg.(configInstances := cur.reg.configInstances[node := cfgInstance.value])), None);
    } else if node in disc.comps {
      var instance := CreateByCtor(meta, cur.reg, host, node);
      if instance.Err? {
        return Outcome(cur, Some(instance.error));
      }
      return Outcome(RegisterComponent(meta, cur, node, instance.value), None);
    } else if node in ReturnTypes(disc.beans) {
      o := ProduceBeans(meta, host, cur, Producers(disc.beans, node));
    } else {
      o := Outcome(cur, None);
    }
  }

  /** The `foreach` over the ordered nodes in `RegisterAnnotatedServices`. */
  method Instantiate(meta: Metadata, host: Host, disc: Discovery, st: State, ordered: seq<TypeId>) returns (o: Outcome)
    ensures o == Instantiation(meta, host, disc, st, ordered)
  {
    var cur := st;
    var k := 0;
    while k < |ordered|
      invariant k <= |ordered|
      invariant Instantiation(meta, host, disc, st, ordered[..k]) == Outcome(cur, None)
    {
      assert ordered[..k + 1][..k] == ordered[..k];
      var step := RunStep(meta, host, disc, cur, ordered[k]);
      if step.failure.Some? {
        InstantiationPrefixError(meta, host, disc, st, ordered, k + 1);
        return step;
      }
      cur := step.st;
      k := k + 1;
    }
    assert ordered[..k] == ordered;
    return Outcome(cur, None);
  }

  /** After the loop, every configuration it passed has an instance, and
      every service or repository class it passed that is not also a
      configuration has a concrete instance. */
  lemma {:induction false} InstantiationCreatesEveryNode(meta: Metadata, host: Host, disc: Discovery, st: State, ordered: seq<TypeId>)
    ensures var o := Instantiation(meta, host, disc, st, ordered);
            o.failure.None? ==>
              && Grows(st, o.st)
              && (forall v :: v in ordered && v in disc.cfgs ==> v in o.st.reg.configInstances)
              && (forall v :: v in ordered && v !in disc.cfgs && v in disc.comps ==> v in o.st.reg.createdConcrete)
  {
    if ordered != [] {
      var init := ordered[..|ordered| - 1];
      var node := ordered[|ordered| - 1];
      InstantiationCreatesEveryNode(meta, host, disc, st, init);
      assert ordered == init + [node];
    }
  }

  /** An exception stops the loop at one node: every node before it was
      created and registered without one, and the outcome is that node's
      pass, partial registrations included, started from there. */
  lemma {:induction false} InstantiationStopsAtOneNode(meta: Metadata, host: Host, disc: Discovery, st: State, ordered: seq<TypeId>)
    ensures var o := Instantiation(meta, host, disc, st, ordered);
            o.failure.Some? ==>
              exists k :: && 0 <= k < |ordered|
                          && Instantiation(meta, host, disc, st, ordered[..k]).failure.None?
                          && o == Step(meta, host, disc, Instantiation(meta, host, disc, st, ordered[..k]).st, ordered[k])
  {
    var o := Instantiation(meta, host, disc, st, ordered);
    if ordered != [] && o.failure.Some? {
      var n := |ordered| - 1;
      var init := ordered[..n];
      var prev := Instantiation(meta, host, disc, st, init);
      if prev.failure.Some? {
        assert o == prev;
        InstantiationStopsAtOneNode(meta, host, disc, st, init);
        var k :| && 0 <= k < |init|
                 && Instantiation(meta, host, disc, st, init[..k]).failure.None?
                 && prev == Step(meta, host, disc, Instantiation(meta, host, disc, st, init[..k]).st, init[k]);
        assert init[..k] == ordered[..k] && init[k] == ordered[k];
      } else {
        assert o == Step(meta, host, disc, prev.st, ordered[n]);
        assert ordered[..n] == init;
      }
    }
  }

  /** What one pass registers: a configuration nothing; a service or
      repository one descriptor, under its first interface or itself, with
      its attribute's lifetime and its new instance; a bean return type one
      singleton per bean method returning it; any other node nothing. */
  lemma StepRegistrations(meta: Metadata, host: Host, disc: Discovery, st: State, node: TypeId)
    requires Step(meta, host, disc, st, node).failure.None?
    ensures var st' := Step(meta, host, disc, st, node).st;
            node in disc.cfgs ==> node in st'.reg.configInstances && st'.services == st.services
    ensures var st' := Step(meta, host, disc, st, node).st;
            node !in disc.cfgs && node in disc.comps ==>
              && node in st'.reg.createdConcrete
              && Creation(meta, st.reg, host, node).Ok?
              && st'.reg.createdConcrete[node] == Creation(meta, st.reg, host, node).value
              && st'.services == st.services + [Descriptor(ServiceTypeOf(meta, node), LifetimeOf(meta, node), st'.reg.createdConcrete[node])]
              && (FirstInterface(meta, node).Some? ==> st'.reg.createdConcrete[node] in st'.reg.instancesByContract[FirstInterface(meta, node).value])
    ensures var st' := Step(meta, host, disc, st, node).st;
            node !in disc.cfgs && node !in disc.comps ==>
              && |st'.services| == |st.services| + |Producers(disc.beans, node)|
              && st.services <= st'.services
              && forall i :: |st.services| <= i < |st'.services| ==>
                   st'.services[i].serviceType == node && st'.services[i].lifetime == Singleton
  {
    if node !in disc.cfgs && node !in disc.comps {
      var producers := Producers(disc.beans, node);
      ProducersOfReturnTypes(disc.beans, node);
      ProduceAllRegistersSingletons(meta, host, st, producers, node);
    }
  }

  /** The lifetime a service or repository is registered with: the one its
      attribute names, and singleton when it names none. */
  lemma ComponentLifetime(meta: Metadata, host: Host, disc: Discovery, st: State, node: TypeId)
    requires Step(meta, host, disc, st, node).failure.None?
    requires node !in disc.cfgs && node in disc.comps
    ensures var st' := Step(meta, host, disc, st, node).st;
            && |st'.services| == |st.services| + 1
            && (meta(node).service.Some? ==> st'.services[|st.services|].lifetime == meta(node).service.value)
            && (meta(node).service.None? ==> st'.services[|st.services|].lifetime == Singleton)
  {
    StepRegistrations(meta, host, disc, st, node);
  }

  /** What a pass that throws leaves registered: a configuration or a
      service or repository nothing, since the exception comes before the
      registration; a bean return type one singleton for each bean method
      that succeeded before the failing one. */
  lemma StepFailureRegistrations(meta: Metadata, host: Host, disc: Discovery, st: State, node: TypeId)
    requires Step(meta, host, disc, st, node).failure.Some?
    ensures var st' := Step(meta, host, disc, st, node).st;
            node in disc.cfgs || node in disc.comps ==> st'.services == st.services
    ensures var st' := Step(meta, host, disc, st, node).st;
            node !in disc.cfgs && node !in disc.comps ==>
              && |st'.services| < |st.services| + |Producers(disc.beans, node)|
              && st.services <= st'.services
              && forall i :: |st.services| <= i < |st'.services| ==>
                   st'.services[i].serviceType == node && st'.services[i].lifetime == Singleton
  {
    if node !in disc.cfgs && node !in disc.comps {
      var producers := Producers(disc.beans, node);
      ProducersOfReturnTypes(disc.beans, node);
      ProduceAllRegistersSingletons(meta, host, st, producers, node);
    }
  }

  /** Exactly the bean methods returning `node` produce it, so only a bean
      return type has producers. */
  lemma ProducersOfReturnTypes(beans: seq<BeanMeta>, node: TypeId)
    ensures forall b :: b in Producers(beans, node) <==> b in beans && b.ReturnType() == node
    ensures Producers(beans, node) != [] <==> node in ReturnTypes(beans)
  {
    var producers := Producers(beans, node);
    if producers != [] {
      assert producers[0] in producers;
      var i :| 0 <= i < |beans| && beans[i] == producers[0];
      assert ReturnTypes(beans)[i] == node;
    }
    if node in ReturnTypes(beans) {
      var i :| 0 <= i < |beans| && ReturnTypes(beans)[i] == node;
      assert beans[i] in producers;
    }
  }

  /** Each bean method returning `node` that succeeds adds exactly one
      singleton registration of `node`; after a failure fewer were added
      than there are bean methods. */
  lemma {:induction false} ProduceAllRegistersSingletons(meta: Metadata, host: Host, st: State, producers: seq<BeanMeta>, node: TypeId)
    requires forall b :: b in producers ==> b.ReturnType() == node
    ensures var o := ProduceAll(meta, host, st, producers);
            && st.services <= o.st.services
            && (forall i :: |st.services| <= i < |o.st.services| ==>
                 o.st.services[i].serviceType == node && o.st.services[i].lifetime == Singleton)
            && (o.failure.None? ==> |o.st.services| == |st.services| + |producers|)
            && (o.failure.Some? ==> |o.st.services| < |st.services| + |producers|)
  {
    if producers != [] {
      var init := producers[..|producers| - 1];
      assert forall b :: b in init ==> b in producers;
      ProduceAllRegistersSingletons(meta, host, st, init, node);
      assert producers[|producers| - 1] in producers;
    }
  }

  /** The point of the topological order: when the loop reaches a node,
      every node it depends on has already been passed, so a configuration
      it depends on has its instance and a service or repository it depends
      on has its concrete instance. */
  lemma DependenciesCreatedFirst(meta: Metadata, index: map<TypeId, seq<TypeId>>, host: Host, disc: Discovery, st: State,
                                 ordered: seq<TypeId>, i: nat, v: TypeId)
    requires IsTopologicalOrder(DependencyGraphOf(meta, index, disc.comps, disc.cfgs, disc.beans), ordered)
    requires i < |ordered|
    requires v in DependencyGraphOf(meta, index, disc.comps, disc.cfgs, disc.beans).adj[ordered[i]]
    requires Instantiation(meta, host, disc, st, ordered[..i]).failure.None?
    ensures var reg := Instantiation(meta, host, disc, st, ordered[..i]).st.reg;
            && v in ordered[..i]
            && (v in disc.cfgs ==> v in reg.configInstances)
            && (v !in disc.cfgs && v in disc.comps ==> v in reg.createdConcrete)
  {
    var g := DependencyGraphOf(meta, index, disc.comps, disc.cfgs, disc.beans);
    EdgeGoesBackInOrder(g, ordered, ordered[i], v);
    IndexOfDistinct(ordered, i);
    var k := IndexOf(ordered, v);
    assert ordered[..i][k] == v;
    InstantiationCreatesEveryNode(meta, host, disc, st, ordered[..i]);
  }

  /** The bean loop creates a missing configuration on demand, expecting
      the topological order to have created it already. That expectation
      holds: before a bean return type is reached, the configuration
      declaring each of its bean methods is already created. */
  lemma ConfigurationReadyForBean(meta: Metadata, index: map<TypeId, seq<TypeId>>, host: Host, disc: Discovery, st: State,
                                  ordered: seq<TypeId>, i: nat, bm: BeanMeta)
    requires IsTopologicalOrder(DependencyGraphOf(meta, index, disc.comps, disc.cfgs, disc.beans), ordered)
    requires bm in disc.beans && bm.configurationType in disc.cfgs
    requires i < |ordered| && ordered[i] == bm.ReturnType()
    requires Instantiation(meta, host, disc, st, ordered[..i]).failure.None?
    ensures bm.configurationType in Instantiation(meta, host, disc, st, ordered[..i]).st.reg.configInstances
  {
    var g := DependencyGraphOf(meta, index, disc.comps, disc.cfgs, disc.beans);
    var u := ordered[i];
    var v := bm.configurationType;
    var j :| 0 <= j < |disc.beans| && disc.beans[j] == bm;
    DependencyGraphEdge(meta, index, disc.comps, disc.cfgs, disc.beans, u, v);
    assert BeanNeeds(meta, index, g.keys, disc.beans[j], u, v);
    DependenciesCreatedFirst(meta, index, host, disc, st, ordered, i, v);
  }

  /** A constructor parameter naming a service or repository class is
      answered with the instance created for it earlier, whatever the base
      provider holds. */
  lemma ConstructorArgumentCreatedFirst(meta: Metadata, index: map<TypeId, seq<TypeId>>, host: Host, disc: Discovery, st: State,
                                        ordered: seq<TypeId>, i: nat, c: nat, p: TypeId)
    requires IsTopologicalOrder(DependencyGraphOf(meta, index, disc.comps, disc.cfgs, disc.beans), ordered)
    requires i < |ordered| && (ordered[i] in disc.comps || ordered[i] in disc.cfgs)
    requires PickGreediestCtor(meta(ordered[i]).ctors) == Some(c)
    requires p in meta(ordered[i]).ctors[c]
    requires meta(p).enumerableOf.None? && !meta(p).isInterface
    requires p in disc.comps && p !in disc.cfgs
    requires Instantiation(meta, host, disc, st, ordered[..i]).failure.None?
    ensures var reg := Instantiation(meta, host, disc, st, ordered[..i]).st.reg;
            p in reg.createdConcrete && Resolve(meta, reg, host, p) == Ok(reg.createdConcrete[p])
  {
    var u := ordered[i];
    var params := meta(u).ctors[c];
    var j :| 0 <= j < |params| && params[j] == p;
    assert p in Expand(meta, index, params[j]);
    ParamDependenciesMember(meta, index, params, p);
    var g := DependencyGraphOf(meta, index, disc.comps, disc.cfgs, disc.beans);
    assert p in disc.comps + disc.cfgs + Dedup(ReturnTypes(disc.beans));
    assert p in g.keys;
    DependencyGraphEdge(meta, index, disc.comps, disc.cfgs, disc.beans, u, p);
    DependenciesCreatedFirst(meta, index, host, disc, st, ordered, i, p);
  }

  /** As written, a bean whose return type is an interface is kept twice
      for that type, as a bean and as an instance of the contract, and
      `Registered` counts both. */
  lemma StoreBeanListsInterfaceBeanTwice(meta: Metadata, st: State, ret: TypeId, bean: Instance)
    requires meta(ret).isInterface
    ensures Registered(StoreBean(meta, st, ret, bean).reg, ret) ==
            Lookup(st.reg.instancesByContract, ret) + [bean] + Lookup(st.reg.beansByReturnType, ret) + [bean]
  {
  }

  /** So the only bean of an interface cannot be injected: a parameter of
      that interface is ambiguous between the bean and itself, and a
      collection of it holds the bean twice. */
  lemma SingleInterfaceBeanIsAmbiguous(meta: Metadata, host: Host, iface: TypeId, coll: TypeId, bean: Instance)
    requires meta(iface).isInterface && meta(iface).enumerableOf.None?
    requires meta(coll).enumerableOf == Some(iface)
    ensures var reg := StoreBean(meta, State(Registry(map[], map[], map[], map[]), []), iface, bean).reg;
            && Resolve(meta, reg, host, iface) == Err(AmbiguousDependency(iface, 2))
            && Resolve(meta, reg, host, coll) == Ok(ListOf(iface, [bean, bean] + ExternalItems(host.provider(coll))))
  {
    var st := State(Registry(map[], map[], map[], map[]), []);
    StoreBeanListsInterfaceBeanTwice(meta, st, iface, bean);
    var reg := StoreBean(meta, st, iface, bean).reg;
    assert Registered(reg, iface) == [bean, bean];
    assert Resolve(meta, reg, host, coll) == Ok(ListOf(iface, Registered(reg, iface) + ExternalItems(host.provider(coll))));
  }

  /** A produced bean kept once: as a bean of its return type, and as the
      concrete instance when that type is a class. */
  function StoreBeanOnce(meta: Metadata, st: State, ret: TypeId, bean: Instance): (st': State)
    ensures Grows(st, st')
    ensures Registered(st'.reg, ret) == Registered(st.reg, ret) + [bean]
    ensures Lookup(st'.reg.beansByReturnType, ret) == Lookup(st.reg.beansByReturnType, ret) + [bean]
    ensures forall k: TypeId :: k != ret ==> Lookup(st'.reg.beansByReturnType, k) == Lookup(st.reg.beansByReturnType, k)
    ensures st'.reg.configInstances == st.reg.configInstances
    ensures st'.reg.instancesByContract == st.reg.instancesByContract
    ensures meta(ret).isInterface ==> st'.reg.createdConcrete == st.reg.createdConcrete
    ensures !meta(ret).isInterface ==> st'.reg.createdConcrete == st.reg.createdConcrete[ret := bean]
    ensures st'.services == st.services + [Descriptor(ret, Singleton, bean)]
  {
    var reg := st.reg.(beansByReturnType := Append(st.reg.beansByReturnType, ret, bean));
    State(if meta(ret).isInterface then reg else reg.(createdConcrete := reg.createdConcrete[ret := bean]),
          st.services + [Descriptor(ret, Singleton, bean)])
  }

  /** Kept once, the only bean of an interface is what a parameter of that
      interface receives, and a collection of it holds the bean once. */
  lemma SingleInterfaceBeanResolvesOnce(meta: Metadata, host: Host, iface: TypeId, coll: TypeId, bean: Instance)
    requires meta(iface).isInterface && meta(iface).enumerableOf.None?
    requires meta(coll).enumerableOf == Some(iface)
    ensures var reg := StoreBeanOnce(meta, State(Registry(map[], map[], map[], map[]), []), iface, bean).reg;
            && Resolve(meta, reg, host, iface) == Ok(bean)
            && Resolve(meta, reg, host, coll) == Ok(ListOf(iface, [bean] + ExternalItems(host.provider(coll))))
  {
    var st := State(Registry(map[], map[], map[], map[]), []);
    assert Registered(st.reg, iface) == [];
    var reg := StoreBeanOnce(meta, st, iface, bean).reg;
    assert Registered(reg, iface) == [bean];
    assert Resolve(meta, reg, host, coll) == Ok(ListOf(iface, Registered(reg, iface) + ExternalItems(host.provider(coll))));
  }
}

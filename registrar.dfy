/** `RegisterAnnotatedServices`: discovery of the annotated classes and bean
    methods, the contract index, the dependency graph, the topological sort
    and the ordered instantiation, one after the other. */
module Registrar {
  import opened Wrappers
  import opened Seqs
  import opened Reflection
  import opened Filters
  import opened ContractIndex
  import opened DependencyGraph
  import opened TopologicalSort
  import opened Resolution
  import opened Instantiation

  /** The active profile: the configuration value under the given key, or
      none when no key is given. */
  function ActiveProfile(config: Configuration, profileKey: Option<string>): (r: Option<string>)
    ensures profileKey.None? ==> r.None?
    ensures profileKey.Some? ==> r == config(profileKey.value)
  {
    if profileKey.Some? then config(profileKey.value) else None
  }

  /** Step 1: a scanned class carrying `[Service]`, `[Repository]` or
      `[Configuration]` whose conditions hold. */
  predicate IsCandidate(meta: Metadata, options: Option<ScanOptions>, profile: Option<string>, config: Configuration, t: TypeId)
  {
    && ShouldScan(meta, t, options)
    && (meta(t).service.Some? || meta(t).isConfiguration)
    && ShouldRegister(meta(t).conditions, profile, config)
  }

  /** The candidates, in scan order: exactly the loaded types that pass. */
  function Candidates(meta: Metadata, allTypes: seq<TypeId>, options: Option<ScanOptions>, profile: Option<string>, config: Configuration): (r: seq<TypeId>)
  {
    Filter((t: TypeId) => IsCandidate(meta, options, profile, config, t), allTypes)
  }

  /** Step 1.1: the `[Bean]` methods of one configuration whose conditions
      hold, in declaration order. */
  function BeansOf(meta: Metadata, profile: Option<string>, config: Configuration, cfg: TypeId): seq<BeanMeta>
  {
    FlatMap((m: MethodDecl) => if m.isBean && ShouldRegister(m.conditions, profile, config) then [BeanMeta(cfg, m)] else [],
            meta(cfg).methods)
  }

  /** Step 1.1: the bean methods of every scanned configuration whose
      conditions hold. */
  function BeanMethods(meta: Metadata, allTypes: seq<TypeId>, options: Option<ScanOptions>, profile: Option<string>, config: Configuration): seq<BeanMeta>
  {
    FlatMap((cfg: TypeId) => BeansOf(meta, profile, config, cfg),
            Filter((t: TypeId) => ShouldScan(meta, t, options) && meta(t).isConfiguration
                                  && ShouldRegister(meta(t).conditions, profile, config), allTypes))
  }

  /** Steps 1, 1.1, 2 and 3.2: the service and repository classes, the
      configurations and the bean methods. */
  function DiscoveryOf(meta: Metadata, allTypes: seq<TypeId>, options: Option<ScanOptions>, profile: Option<string>, config: Configuration): Discovery
  {
    var candidates := Candidates(meta, allTypes, options, profile, config);
    Discovery(Filter((t: TypeId) => meta(t).service.Some?, candidates),
              Filter((t: TypeId) => meta(t).isConfiguration, candidates),
              BeanMethods(meta, allTypes, options, profile, config))
  }

  /** What discovery finds: exactly the scanned service or repository
      classes and the scanned configurations whose conditions hold, and
      exactly the `[Bean]` methods, with their conditions holding, of those
      configurations. */
  lemma DiscoveryMeaning(meta: Metadata, allTypes: seq<TypeId>, options: Option<ScanOptions>, profile: Option<string>, config: Configuration,
                         t: TypeId, b: BeanMeta)
    ensures var disc := DiscoveryOf(meta, allTypes, options, profile, config);
            t in disc.comps <==>
              t in allTypes && ShouldScan(meta, t, options) && meta(t).service.Some? && ShouldRegister(meta(t).conditions, profile, config)
    ensures var disc := DiscoveryOf(meta, allTypes, options, profile, config);
            t in disc.cfgs <==>
              t in allTypes && ShouldScan(meta, t, options) && meta(t).isConfiguration && ShouldRegister(meta(t).conditions, profile, config)
    ensures var disc := DiscoveryOf(meta, allTypes, options, profile, config);
            b in disc.beans <==>
              && b.configurationType in disc.cfgs
              && b.beanMethod in meta(b.configurationType).methods
              && b.beanMethod.isBean
              && ShouldRegister(b.beanMethod.conditions, profile, config)
  {
    BeanMethodsMember(meta, allTypes, options, profile, config, b);
  }

  /** The bean metadata of one configuration. */
  lemma BeansOfMember(meta: Metadata, profile: Option<string>, config: Configuration, cfg: TypeId, b: BeanMeta)
    ensures b in BeansOf(meta, profile, config, cfg) <==>
            && b.configurationType == cfg
            && b.beanMethod in meta(cfg).methods
            && b.beanMethod.isBean
            && ShouldRegister(b.beanMethod.conditions, profile, config)
  {
    var h := (m: MethodDecl) => if m.isBean && ShouldRegister(m.conditions, profile, config) then [BeanMeta(cfg, m)] else [];
    var methods := meta(cfg).methods;
    FlatMapMember(h, methods, b);
    if b.configurationType == cfg && b.beanMethod in methods && b.beanMethod.isBean
       && ShouldRegister(b.beanMethod.conditions, profile, config) {
      var j :| 0 <= j < |methods| && methods[j] == b.beanMethod;
      assert b in h(methods[j]);
    }
  }

  lemma BeanMethodsMember(meta: Metadata, allTypes: seq<TypeId>, options: Option<ScanOptions>, profile: Option<string>, config: Configuration, b: BeanMeta)
    ensures b in BeanMethods(meta, allTypes, options, profile, config) <==>
            && b.configurationType in allTypes
            && ShouldScan(meta, b.configurationType, options)
            && meta(b.configurationType).isConfiguration
            && ShouldRegister(meta(b.configurationType).conditions, profile, config)
            && b.beanMethod in meta(b.configurationType).methods
            && b.beanMethod.isBean
            && ShouldRegister(b.beanMethod.conditions, profile, config)
  {
    var scanned := Filter((t: TypeId) => ShouldScan(meta, t, options) && meta(t).isConfiguration
                                         && ShouldRegister(meta(t).conditions, profile, config), allTypes);
    var f := (cfg: TypeId) => BeansOf(meta, profile, config, cfg);
    FlatMapMember(f, scanned, b);
    BeansOfMember(meta, profile, config, b.configurationType, b);
    if b in BeanMethods(meta, allTypes, options, profile, config) {
      var i :| 0 <= i < |scanned| && b in f(scanned[i]);
      BeansOfMember(meta, profile, config, scanned[i], b);
    }
    if b.configurationType in scanned && b in f(b.configurationType) {
      var i :| 0 <= i < |scanned| && scanned[i] == b.configurationType;
      assert b in f(scanned[i]);
    }
  }

  /** Every bean method belongs to a discovered configuration, so the graph
      that step 3 builds is well formed. */
  lemma BeansBelongToConfigurations(meta: Metadata, allTypes: seq<TypeId>, options: Option<ScanOptions>, profile: Option<string>, config: Configuration)
    ensures var disc := DiscoveryOf(meta, allTypes, options, profile, config);
            forall i :: 0 <= i < |disc.beans| ==> disc.beans[i].configurationType in disc.cfgs
  {
    var disc := DiscoveryOf(meta, allTypes, options, profile, config);
    forall i | 0 <= i < |disc.beans|
      ensures disc.beans[i].configurationType in disc.cfgs
    {
      DiscoveryMeaning(meta, allTypes, options, profile, config, 0, disc.beans[i]);
    }
  }

  /** The dependency graph of what discovery finds. */
  function GraphOf(meta: Metadata, disc: Discovery): Graph
  {
    DependencyGraphOf(meta, ContractIndexOf(meta, disc.comps), disc.comps, disc.cfgs, disc.beans)
  }

  /** Steps 1 to 3 of `RegisterAnnotatedServices`: discovery, the contract
      index and the dependency graph, which is well formed. */
  method DiscoverGraph(meta: Metadata, allTypes: seq<TypeId>, options: Option<ScanOptions>, profile: Option<string>, config: Configuration)
    returns (disc: Discovery, graph: Graph)
    ensures disc == DiscoveryOf(meta, allTypes, options, profile, config)
    ensures graph == GraphOf(meta, disc) && Valid(graph)
  {
    var candidates := Candidates(meta, allTypes, options, profile, config);
    var beanMethods := BeanMethods(meta, allTypes, options, profile, config);
    var concreteServiceOrRepo := Filter((t: TypeId) => meta(t).service.Some?, candidates);
    var contractToImpl := BuildContractIndex(meta, concreteServiceOrRepo);
    ContractIndexUnique(meta, concreteServiceOrRepo, contractToImpl);
    var configurations := Filter((t: TypeId) => meta(t).isConfiguration, candidates);
    disc := Discovery(concreteServiceOrRepo, configurations, beanMethods);
    assert disc == DiscoveryOf(meta, allTypes, options, profile, config);
    graph := BuildGraph(meta, contractToImpl, concreteServiceOrRepo, configurations, beanMethods);
    BeansBelongToConfigurations(meta, allTypes, options, profile, config);
    DependencyGraphValid(meta, contractToImpl, concreteServiceOrRepo, configurations, beanMethods);
  }

  /** The graph of what discovery finds is well formed. */
  lemma DiscoveredGraphValid(meta: Metadata, allTypes: seq<TypeId>, options: Option<ScanOptions>, profile: Option<string>, config: Configuration)
    ensures Valid(GraphOf(meta, DiscoveryOf(meta, allTypes, options, profile, config)))
  {
    var disc := DiscoveryOf(meta, allTypes, options, profile, config);
    BeansBelongToConfigurations(meta, allTypes, options, profile, config);
    DependencyGraphValid(meta, ContractIndexOf(meta, disc.comps), disc.comps, disc.cfgs, disc.beans);
  }

  /** What a registration leaves behind: the caller's service collection and
      the exception that ended the call, if any. */
  datatype Registration = Registration(services: seq<Descriptor>, failure: Option<Error>)

  /** Steps 4 and 5 over what discovery found: a cycle is found before
      anything is created and leaves the collection as it was; otherwise the
      nodes are created in the order of the depth-first search, and an
      exception keeps what was registered before it. */
  function RegistrationFrom(meta: Metadata, host: Host, disc: Discovery, services: seq<Descriptor>): Registration
    requires Valid(GraphOf(meta, disc))
  {
    DfsOrderMeaning(GraphOf(meta, disc));
    var sorted := DfsOrder(GraphOf(meta, disc));
    if sorted.Err? then Registration(services, Some(CyclicDependency(ReportedChainAsWritten(sorted.error))))
    else
      var o := Instantiation.Instantiation(meta, host, disc, State(Registry(map[], map[], map[], map[]), services), sorted.value);
      Registration(o.st.services, o.failure)
  }

  /** The whole registration. `allTypes` are the types of the loaded
      assemblies; `services` is the caller's service collection, which the
      call extends in place. */
  function RegistrationOf(meta: Metadata, host: Host, config: Configuration, allTypes: seq<TypeId>,
                          services: seq<Descriptor>, profileKey: Option<string>, options: Option<ScanOptions>): Registration
  {
    DiscoveredGraphValid(meta, allTypes, options, ActiveProfile(config, profileKey), config);
    RegistrationFrom(meta, host, DiscoveryOf(meta, allTypes, options, ActiveProfile(config, profileKey), config), services)
  }

  /** Steps 4 and 5 fail with a cyclic dependency exactly when the graph
      has a cycle; the collection is then unchanged and the error carries
      the printed chain of the cycle the search met. Otherwise the nodes are
      created in a topological order of the graph, and the collection and
      the exception are those of the instantiation loop. */
  lemma RegistrationFromMeaning(meta: Metadata, host: Host, disc: Discovery, services: seq<Descriptor>)
    requires Valid(GraphOf(meta, disc))
    ensures var r := RegistrationFrom(meta, host, disc, services);
            r.failure.Some? && r.failure.value.CyclicDependency? <==> !Acyclic(GraphOf(meta, disc))
    ensures var r := RegistrationFrom(meta, host, disc, services);
            var sorted := DfsOrder(GraphOf(meta, disc));
            sorted.Err? ==>
              && sorted.error.node in sorted.error.stack
              && IsCycle(GraphOf(meta, disc), CycleChain(sorted.error))
              && r.failure == Some(CyclicDependency(ReportedChainAsWritten(sorted.error)))
              && r.services == services
    ensures var r := RegistrationFrom(meta, host, disc, services);
            var sorted := DfsOrder(GraphOf(meta, disc));
            sorted.Ok? ==>
              var o := Instantiation.Instantiation(meta, host, disc, State(Registry(map[], map[], map[], map[]), services), sorted.value);
              && IsTopologicalOrder(GraphOf(meta, disc), sorted.value)
              && r.failure == o.failure
              && r.services == o.st.services
  {
    var g := GraphOf(meta, disc);
    DfsOrderMeaning(g);
    if DfsOrder(g).Ok? {
      RegistrationFromOrdered(meta, host, disc, services);
    }
  }

  /** When the search finds an order, the registration is the instantiation
      loop's over it, and its exception, if any, is one of creation. */
  lemma RegistrationFromOrdered(meta: Metadata, host: Host, disc: Discovery, services: seq<Descriptor>)
    requires Valid(GraphOf(meta, disc))
    requires DfsOrder(GraphOf(meta, disc)).Ok?
    ensures var o := Instantiation.Instantiation(meta, host, disc, State(Registry(map[], map[], map[], map[]), services),
                                                 DfsOrder(GraphOf(meta, disc)).value);
            && RegistrationFrom(meta, host, disc, services) == Registration(o.st.services, o.failure)
            && (o.failure.Some? ==> !o.failure.value.CyclicDependency?)
  {
  }

  /** `RegisterAnnotatedServices`: the collection comes back as `services'`,
      together with the exception that ended the call, if any. */
  method RegisterAnnotatedServices(meta: Metadata, host: Host, config: Configuration, allTypes: seq<TypeId>,
                                   services: seq<Descriptor>, profileKey: Option<string>, options: Option<ScanOptions>)
    returns (services': seq<Descriptor>, failure: Option<Error>)
    ensures Registration(services', failure) == RegistrationOf(meta, host, config, allTypes, services, profileKey, options)
  {
    var profile := ActiveProfile(config, profileKey);
    var disc, graph := DiscoverGraph(meta, allTypes, options, profile, config);
    var sorted := TopologicalSort.TopologicalSort(graph);
    if sorted.Err? {
      return services, Some(CyclicDependency(ReportedChainAsWritten(sorted.error)));
    }
    var o := Instantiate(meta, host, disc, State(Registry(map[], map[], map[], map[]), services), sorted.value);
    return o.st.services, o.failure;
  }
}

# Annotated dependency injection registrar, modelled in Dafny

This project models `RegisterAnnotatedServices`, the start-up registrar of
AnnotatedDIExample, and the `[Profile]` attribute's parser. The registrar:

- discovers the scanned classes that carry `[Service]`, `[Repository]` or
  `[Configuration]`, and the `[Bean]` methods of those configurations,
  keeping only those whose `[Profile]` and `[ConditionalOnProperty]`
  conditions hold;
- indexes each service or repository class under its first interface;
- builds a dependency graph over these classes and the bean return types,
  from the parameters of the greediest constructor of each class and of
  each bean method;
- sorts the graph topologically by depth-first search, and fails on the
  first cycle it meets;
- creates every node in that order. Each constructor or bean argument comes
  from the registrar's own instances, and from the host's service provider
  after them. Services, repositories and beans are registered in the
  caller's service collection, which is extended in place: an exception
  thrown during creation leaves the registrations made before it.

Types are natural-number identifiers. Everything the registrar reads by
reflection is a `TypeInfo` record, supplied as the function
`meta: TypeId -> TypeInfo`. Three things are parameters of the model (the
`Host` datatype), not modelled behaviour:

- the host's service provider, as a function `TypeId -> Option<Instance>`;
- `Activator.CreateInstance`;
- `MethodInfo.Invoke`, where `None` stands for a bean method returning null.

Every `Dictionary`, `HashSet` and `List` is a sequence or a map, enumerated
in insertion order. Modules:

- `Text` covers white space, `Trim`, case-insensitive comparison, `Split`
  and `Join`.
- `ProfileAttribute` covers the attribute's parser and constructor.
- `Filters` covers `ShouldRegister` and `ShouldScan`.
- `ContractIndex`, `DependencyGraph`, `TopologicalSort`, `Resolution` and
  `Instantiation` cover steps 2 to 5 of the registrar.
- `Registrar` covers discovery and the whole call.

The loops of the source are methods with `while` loops. Each is proved
equal to a specification function, and the lemmas state what those
functions mean. `Visit` and `TopologicalSort` thread the state map, path
and result through in and out parameters; they compute `VisitOf` and
`DfsOrder`, the depth-first search written as mutually recursive functions,
so the model fixes the exact post-order and the exact point where a cycle
is met. The instantiation loop computes `Instantiation`, an `Outcome` that
holds the registry and service collection reached together with the
exception, if any, that stopped the loop.

## Model

| member | source | states |
|---|---|---|
| ProfileAttribute.ParseProfiles | AnnotatedDIExample/Attributes/ProfileAttribute.cs:14-23 | null text gives the empty list; every entry is non-empty, trimmed and free of commas |
| ProfileAttribute.NewProfile | AnnotatedDIExample/Attributes/ProfileAttribute.cs:8-12 | neither list is ever null and each holds only well-formed entries; a missing argument gives an empty list |
| ProfileAttribute.NewProfileArgumentsIndependent | AnnotatedDIExample/Attributes/ProfileAttribute.cs:10-11 | `Include` depends only on the first argument and `Exclude` only on the second |
| ProfileAttribute.ParseProfilesConcat | AnnotatedDIExample/Attributes/ProfileAttribute.cs:20-22 | entries keep the left-to-right order of the segments: parsing `a,b` gives the entries of `a` followed by those of `b` |
| ProfileAttribute.ParseProfilesSegment | AnnotatedDIExample/Attributes/ProfileAttribute.cs:21 | a segment without a comma gives its trimmed self, or nothing when it is blank |
| ProfileAttribute.ParseProfilesRoundTrip | AnnotatedDIExample/Attributes/ProfileAttribute.cs:20-22 | well-formed entries joined with commas parse back to the same list |
| ProfileAttribute.ParseProfilesIdempotent | AnnotatedDIExample/Attributes/ProfileAttribute.cs:20-22 | re-parsing the joined entries changes nothing |
| Text.TrimOfTrimmed | AnnotatedDIExample/Attributes/ProfileAttribute.cs:21 | trimming leaves a trimmed string unchanged |
| Text.TrimEmptyIffBlank | AnnotatedDIExample/Attributes/ProfileAttribute.cs:21 | a segment trims to empty exactly when it is all white space |
| Text.SplitJoin | AnnotatedDIExample/Attributes/ProfileAttribute.cs:21 | splitting a comma-joined list of comma-free parts gives back the parts |
| Text.EqualsIgnoreCaseIsEquivalence | AnnotatedDIExample/Configuration/ServiceRegistrar.cs:421 | the case-insensitive comparison is reflexive, symmetric and transitive |
| Filters.EqualsIgnoreCaseTrim | AnnotatedDIExample/Configuration/ServiceRegistrar.cs:427-428 | two values that agree after trimming compare equal, and two values that compare equal have trimmed forms of the same length |
| Filters.EqualsIgnoreCaseTrimProperties | AnnotatedDIExample/Configuration/ServiceRegistrar.cs:427-428 | `EqualsIgnoreCaseTrim` is an equivalence, and trimming either side first changes nothing |
| Filters.ProfileAllows | AnnotatedDIExample/Configuration/ServiceRegistrar.cs:397-413 | with a non-blank profile, the member is kept iff no exclude entry matches it and, if there are include entries, some include entry matches; with a blank or absent profile, kept iff there are no include entries; kept when there is no attribute |
| Filters.PropertyAllows | AnnotatedDIExample/Configuration/ServiceRegistrar.cs:415-422 | a missing property gives `MatchIfMissing`; a present one must equal `HavingValue` character by character, ignoring case; no attribute keeps the member |
| Filters.ShouldRegister | AnnotatedDIExample/Configuration/ServiceRegistrar.cs:394-425 | kept iff both the profile rule and the property rule allow it; a member with neither attribute is kept |
| Filters.ShouldRegisterProfileSpelling | AnnotatedDIExample/Configuration/ServiceRegistrar.cs:403-406 | two spellings of the active profile that agree after trimming and ignoring case select the same members |
| Filters.ShouldRegisterBlankProfile | AnnotatedDIExample/Configuration/ServiceRegistrar.cs:403-412 | a blank active profile behaves like no profile at all |
| Filters.SingleProfileRule | AnnotatedDIExample/Configuration/ServiceRegistrar.cs:397-412 | for a `[Profile]` with one include entry and one exclude entry, the member is kept iff the profile is non-blank, matches the include entry and does not match the exclude entry |
| Filters.IsSameOrSubNamespace | AnnotatedDIExample/Configuration/ServiceRegistrar.cs:465-471 | a blank namespace contains every candidate; a blank candidate lies in no non-blank namespace |
| Filters.IsSameOrSubNamespaceSegments | AnnotatedDIExample/Configuration/ServiceRegistrar.cs:465-471 | for non-blank names, containment holds iff the dot-separated segments of the namespace are a prefix of the candidate's |
| Filters.IsSameOrSubNamespaceTransitive | AnnotatedDIExample/Configuration/ServiceRegistrar.cs:465-471 | namespace containment is transitive |
| Filters.ShouldScan | AnnotatedDIExample/Configuration/ServiceRegistrar.cs:430-463 | with no options every type is scanned; otherwise a type is scanned iff (there is no include list, or no include marker has a usable namespace, or some usable include namespace contains it) and no usable exclude namespace contains it |
| Reflection.FirstInterface | AnnotatedDIExample/Configuration/ServiceRegistrar.cs:54 | `FirstOrDefault` is absent exactly for a class without interfaces, and is otherwise the first one, `interfaces[0]` |
| ContractIndex.BuildContractIndex | AnnotatedDIExample/Configuration/ServiceRegistrar.cs:51-64 | the loop leaves a contract index: each contract holds its implementers in discovery order, and only contracts with an implementer are keys |
| ContractIndex.ContractIndexListing | AnnotatedDIExample/Configuration/ServiceRegistrar.cs:51-64 | a class is listed under a contract iff it was discovered and that contract is its first interface, so it appears under at most one contract and under none without interfaces; the keys are exactly the first interfaces |
| ContractIndex.ImplementersOfConcat | AnnotatedDIExample/Configuration/ServiceRegistrar.cs:52-63 | the index of two lists of classes keeps each contract's implementers in discovery order |
| ContractIndex.ContractIndexUnique | AnnotatedDIExample/Configuration/ServiceRegistrar.cs:51-64 | there is only one contract index of a list of classes |
| DependencyGraph.ExpandMember | AnnotatedDIExample/Configuration/ServiceRegistrar.cs:245-267 | over the contract index, `Expand` sends an `IEnumerable<T>` parameter to exactly the discovered classes whose first interface is `T`, an interface parameter to exactly those whose first interface it is, and any other type to itself |
| DependencyGraph.ExpandIsImplementers | AnnotatedDIExample/Configuration/ServiceRegistrar.cs:245-267 | `Expand`, the model of `ExpandParamToDependencyTypes`, gives the implementers' list of the element type or of the interface itself, in discovery order (empty when there are none), and the type itself for any other parameter |
| DependencyGraph.PickGreediestCtor | AnnotatedDIExample/Configuration/ServiceRegistrar.cs:269-272 | none iff there is no public constructor; otherwise a constructor with the most parameters, and the first such (the ordering is stable) |
| DependencyGraph.ParamDependenciesMeaning | AnnotatedDIExample/Configuration/ServiceRegistrar.cs:99-107 | a parameter list depends on `v` iff one of its parameters needs `v`, in the sense of `ExpandMember` |
| DependencyGraph.AddDependencies | AnnotatedDIExample/Configuration/ServiceRegistrar.cs:101-106 | the innermost loop adds to the node's set exactly the expanded types that are graph nodes, in order and without repetition |
| DependencyGraph.AddParamDependencies | AnnotatedDIExample/Configuration/ServiceRegistrar.cs:99-107 | the parameter loop adds the graph nodes of every parameter's expansion, in order |
| DependencyGraph.AddCtorEdges | AnnotatedDIExample/Configuration/ServiceRegistrar.cs:93-126 | steps 3.4 and 3.5 add each class's constructor edges to its own set only; keys are unchanged |
| DependencyGraph.AddBeanEdges | AnnotatedDIExample/Configuration/ServiceRegistrar.cs:128-142 | step 3.6 adds, for each bean, its configuration and its parameters' graph nodes to the set of its return type only |
| DependencyGraph.BuildNodes | AnnotatedDIExample/Configuration/ServiceRegistrar.cs:70-91 | the keys are the service and repository classes, then the configurations, then the bean return types, each once, all with empty sets |
| DependencyGraph.BuildGraph | AnnotatedDIExample/Configuration/ServiceRegistrar.cs:66-142 | steps 3.1 to 3.6 build exactly `DependencyGraphOf`: keys in first-insertion order, each set the node's edges in first-insertion order |
| DependencyGraph.CtorEdgesMember | AnnotatedDIExample/Configuration/ServiceRegistrar.cs:94-126 | a constructor edge leaves `u` iff `u` is one of the classes and the target is a graph node that its greediest constructor needs |
| DependencyGraph.BeanEdgesMember | AnnotatedDIExample/Configuration/ServiceRegistrar.cs:129-142 | a bean edge leaves `u` iff some bean returns `u` and the target is its configuration, or a graph node its parameters need |
| DependencyGraph.DependencyGraphEdge | AnnotatedDIExample/Configuration/ServiceRegistrar.cs:93-142 | `u` depends on `v` iff `u` is a node and either `u` is a discovered service, repository or configuration class whose greediest constructor needs the node `v`, or a bean returning `u` is declared by `v` or needs the node `v` |
| DependencyGraph.DependencyGraphValid | AnnotatedDIExample/Configuration/ServiceRegistrar.cs:66-142 | when every bean's configuration is discovered, the keys are distinct and every edge target is a key |
| TopologicalSort.VisitOf | AnnotatedDIExample/Configuration/ServiceRegistrar.cs:494-523 | the search only ever adds entries to the state dictionary |
| TopologicalSort.VisitDeps | AnnotatedDIExample/Configuration/ServiceRegistrar.cs:517-518 | visiting the dependencies in order only ever adds entries to the state dictionary |
| TopologicalSort.VisitOfInv | AnnotatedDIExample/Configuration/ServiceRegistrar.cs:494-523 | a visit that meets no cycle keeps the search invariant, puts the node in the result and only appends to it; a visit that stops met a node on the path stack, and the stack from that node on is a cycle of the graph |
| TopologicalSort.VisitDepsInv | AnnotatedDIExample/Configuration/ServiceRegistrar.cs:517-518 | visiting the remaining dependencies either keeps the invariant and puts every one of them in the result, or stops at a cycle of the graph |
| TopologicalSort.RootsFromInv | AnnotatedDIExample/Configuration/ServiceRegistrar.cs:485-489 | the loop over the keys, each key not yet in the state visited with an empty path, ends with a topological order or stops at a cycle |
| TopologicalSort.DfsOrderMeaning | AnnotatedDIExample/Configuration/ServiceRegistrar.cs:479-523 | `DfsOrder`, the search's outcome, succeeds iff the graph is acyclic, and then lists every key once, after all of its dependencies; otherwise it stops at a real cycle |
| TopologicalSort.Visit | AnnotatedDIExample/Configuration/ServiceRegistrar.cs:494-523 | the method, recursion and loop included, hands back exactly the state, result and cycle of `VisitOf` |
| TopologicalSort.TopologicalSort | AnnotatedDIExample/Configuration/ServiceRegistrar.cs:479-492 | the method computes exactly `DfsOrder`: it succeeds iff the graph is acyclic; the result lists every key exactly once, each after all of its dependencies; a failure carries a real cycle |
| TopologicalSort.ReportedChainAsWritten | AnnotatedDIExample/Configuration/ServiceRegistrar.cs:506-507 | the chain the message prints has one entry per stack entry below the first occurrence of the revisited node, plus that node, which ends it |
| TopologicalSort.CycleChain | AnnotatedDIExample/Configuration/ServiceRegistrar.cs:501-510 | the corrected chain starts and ends with the revisited node and has at least two entries |
| TopologicalSort.TopologicalOrderIsAcyclic | AnnotatedDIExample/Configuration/ServiceRegistrar.cs:479-523 | a graph with a topological order has no cycle |
| TopologicalSort.EdgeGoesBackInOrder | AnnotatedDIExample/Configuration/ServiceRegistrar.cs:517-522 | in the result, a dependency comes strictly before its dependent |
| TopologicalSort.DetectedIsCycle | AnnotatedDIExample/Configuration/ServiceRegistrar.cs:501-510 | the path stack from the first occurrence of the revisited node, closed by the edge back to it, is a cycle |
| TopologicalSort.ReportedChainIsNeverACycle | AnnotatedDIExample/Configuration/ServiceRegistrar.cs:506-507 | the chain the exception message prints is never a cycle of any graph |
| TopologicalSort.ReportedChainTwoCycleExample | AnnotatedDIExample/Configuration/ServiceRegistrar.cs:506-508 | for A -> B -> A searched from A, the message names only A, while the cycle is A -> B -> A |
| Resolution.Resolve | AnnotatedDIExample/Configuration/ServiceRegistrar.cs:291-366 | a collection request never fails, and every failure is an ambiguous or unresolved dependency or contract |
| Resolution.ResolveAll | AnnotatedDIExample/Configuration/ServiceRegistrar.cs:284-286 | every failure of the argument list is an ambiguous or unresolved dependency or contract |
| Resolution.Creation | AnnotatedDIExample/Configuration/ServiceRegistrar.cs:274-289 | every failure is a missing constructor of the requested class or a resolution failure |
| Resolution.ResolveForParam | AnnotatedDIExample/Configuration/ServiceRegistrar.cs:291-366 | the method, loops included, computes exactly `Resolve` |
| Resolution.CollectionFor | AnnotatedDIExample/Configuration/ServiceRegistrar.cs:303-324 | the gathering and copying loops give the contract instances, then the beans, then the provider's items |
| Resolution.CollectionsAlwaysResolve | AnnotatedDIExample/Configuration/ServiceRegistrar.cs:299-325 | a collection request never fails and never reports ambiguity; it gives a list of the element type with the contract instances first, every registered and external item, and nothing else |
| Resolution.RegistryTakesPrecedence | AnnotatedDIExample/Configuration/ServiceRegistrar.cs:327-343 | an already created concrete type, or an interface with a registered instance, resolves the same whatever the base provider holds; the concrete case gives the created instance |
| Resolution.InterfaceResolution | AnnotatedDIExample/Configuration/ServiceRegistrar.cs:332-357 | a single interface request with one candidate gives it; with none, it gives the provider's answer or fails as an unresolved contract |
| Resolution.AmbiguityExactly | AnnotatedDIExample/Configuration/ServiceRegistrar.cs:332-348 | ambiguity is reported iff the request is a non-collection interface, no concrete instance of it exists and more than one candidate is registered; the error carries the count |
| Resolution.UnresolvedExactly | AnnotatedDIExample/Configuration/ServiceRegistrar.cs:350-365 | an unresolved error happens iff neither the registrar nor the provider has anything; it names the request, as a contract for an interface and as a dependency otherwise |
| Resolution.ResolveArguments | AnnotatedDIExample/Configuration/ServiceRegistrar.cs:284-286 | the argument loop computes exactly `ResolveAll`, stopping at the first failure |
| Resolution.ResolveAllIgnoresConfigurations | AnnotatedDIExample/Configuration/ServiceRegistrar.cs:284-296 | the configuration instances are not among what `ResolveForParam` is given, so they never change what a parameter list resolves to |
| Resolution.ResolveAllMeaning | AnnotatedDIExample/Configuration/ServiceRegistrar.cs:284-286 | arguments are found iff every parameter resolves, one per parameter in order; otherwise the error is that of the first failing parameter |
| Resolution.CreateByCtor | AnnotatedDIExample/Configuration/ServiceRegistrar.cs:274-289 | the method computes exactly `Creation` |
| Resolution.CreationMeaning | AnnotatedDIExample/Configuration/ServiceRegistrar.cs:274-289 | a missing constructor is reported iff there is none; success builds the class from one resolved argument per parameter of a greediest constructor; any other failure is the error of the first parameter of that greediest constructor that fails to resolve, every earlier parameter resolving |
| Instantiation.ServiceTypeOf | AnnotatedDIExample/Configuration/ServiceRegistrar.cs:368-377 | the service type is the class itself or its first interface, and the class itself when it has no interfaces |
| Instantiation.ComponentLifetime | AnnotatedDIExample/Configuration/ServiceRegistrar.cs:168-173 | a service or repository is registered with the lifetime its attribute names, and as a singleton when it names none, the fallback of `HasLifetime` and `GetLifetime` (lines 379-390) |
| Instantiation.RegisterComponent | AnnotatedDIExample/Configuration/ServiceRegistrar.cs:168-186 | a created service or repository gets exactly one descriptor, under `ServiceTypeOf` with its lifetime; the concrete instances change only at its class, which gets it; it is appended to its first interface's list, every other contract's list is kept as it was, and the configurations and beans are untouched |
| Instantiation.StoreBean | AnnotatedDIExample/Configuration/ServiceRegistrar.cs:208-233 | a bean gets one singleton descriptor of its return type and is appended to the beans of that type, every other type's beans kept; the configurations are untouched. For an interface it is also appended to that contract's instances, every other contract's list is kept and the concrete instances are untouched; otherwise it becomes the concrete instance of the type and the contracts' lists are untouched |
| Instantiation.StoreBeanListsInterfaceBeanTwice | AnnotatedDIExample/Configuration/ServiceRegistrar.cs:212-228 | as written, the candidates `ResolveForParam` gathers for an interface gain a bean of that interface twice, once as a contract instance and once as a bean |
| Instantiation.SingleInterfaceBeanIsAmbiguous | AnnotatedDIExample/Configuration/ServiceRegistrar.cs:303-348 | as written, with the only bean of interface `I` stored, a request for `I` fails as ambiguous with a count of 2, and `IEnumerable<I>` holds the bean twice before the provider's items |
| Instantiation.StoreBeanOnce | AnnotatedDIExample/Configuration/ServiceRegistrar.cs:208-233 | corrected: the candidates of the return type gain the bean exactly once, and the collection gains one singleton of that type; other types' beans, the configurations and the contracts' lists are kept, and the concrete instances change only for a class return type, which gets the bean |
| Instantiation.SingleInterfaceBeanResolvesOnce | AnnotatedDIExample/Configuration/ServiceRegistrar.cs:303-348 | corrected: the only bean of `I` is what a request for `I` receives, and `IEnumerable<I>` holds it once before the provider's items |
| Instantiation.Produce | AnnotatedDIExample/Configuration/ServiceRegistrar.cs:193-234 | one bean method either throws a creation, resolution or null-bean error and adds no descriptor, or adds exactly one singleton of its return type, whose instance is what the host's call of the method returns on the configuration instance with the arguments resolved from the registry it started from; an existing configuration instance is reused unchanged |
| Instantiation.RunProduce | AnnotatedDIExample/Configuration/ServiceRegistrar.cs:193-234 | one pass of the loop over the bean methods computes exactly `Produce` |
| Instantiation.ProduceAll | AnnotatedDIExample/Configuration/ServiceRegistrar.cs:191-234 | the bean methods in order only add to the registry and the collection, and fail only with a creation, resolution or null-bean error |
| Instantiation.ProduceAllRegistersSingletons | AnnotatedDIExample/Configuration/ServiceRegistrar.cs:191-234 | every descriptor the bean loop adds is a singleton of the node; each succeeding bean method adds one, so a failure leaves fewer than there are bean methods |
| Instantiation.ProduceBeans | AnnotatedDIExample/Configuration/ServiceRegistrar.cs:191-234 | the loop over the bean methods of one return type computes exactly `ProduceAll`, including the partial state when a bean method throws |
| Instantiation.Step | AnnotatedDIExample/Configuration/ServiceRegistrar.cs:156-234 | one pass only adds to the registry and the collection, and fails only with a creation or resolution error or a null bean |
| Instantiation.RunStep | AnnotatedDIExample/Configuration/ServiceRegistrar.cs:156-234 | the body of the loop over the ordered nodes computes exactly `Step` |
| Instantiation.Instantiation | AnnotatedDIExample/Configuration/ServiceRegistrar.cs:154-240 | the loop only adds to the registry and the collection; its only exceptions are ambiguous or unresolved dependencies, missing constructors and null beans, never a cycle |
| Instantiation.Instantiate | AnnotatedDIExample/Configuration/ServiceRegistrar.cs:154-240 | the loop over the ordered nodes computes exactly `Instantiation`, stopping at the first exception with the partial registry and collection |
| Instantiation.InstantiationStopsAtOneNode | AnnotatedDIExample/Configuration/ServiceRegistrar.cs:154-240 | an exception comes from one node: all nodes before it passed without one, and the outcome is that node's pass started from their state, so their registrations are kept |
| Instantiation.StepRegistrations | AnnotatedDIExample/Configuration/ServiceRegistrar.cs:156-234 | a configuration gets an instance and is not registered; a service or repository gets one descriptor, under its first interface or itself, with its attribute's lifetime, whose instance is the one `Creation` builds from the registry before the step, and is listed under its first interface; a bean return type gets one singleton per producing bean method |
| Instantiation.StepFailureRegistrations | AnnotatedDIExample/Configuration/ServiceRegistrar.cs:156-234 | a configuration, service or repository that throws registers nothing; a bean return type that throws keeps one singleton for each bean method that succeeded before, fewer than it has bean methods |
| Instantiation.ProducersOfReturnTypes | AnnotatedDIExample/Configuration/ServiceRegistrar.cs:188-191 | the producers of a node are exactly the bean methods returning it, so only bean return types have any |
| Instantiation.InstantiationCreatesEveryNode | AnnotatedDIExample/Configuration/ServiceRegistrar.cs:154-240 | after the loop, every configuration passed has an instance and every other service or repository class passed has a concrete instance; no configuration or concrete type loses its instance, and the collection only gains entries at its end |
| Instantiation.DependenciesCreatedFirst | AnnotatedDIExample/Configuration/ServiceRegistrar.cs:144-187 | in a topological order, every graph dependency of a node was passed before it, so its instance already exists |
| Instantiation.ConfigurationReadyForBean | AnnotatedDIExample/Configuration/ServiceRegistrar.cs:194-199 | in a topological order, the configuration of every bean method exists before its return type is reached, as the comment on line 196 expects |
| Instantiation.ConstructorArgumentCreatedFirst | AnnotatedDIExample/Configuration/ServiceRegistrar.cs:159-167 | a constructor parameter naming a service or repository class gets the instance created for it earlier, whatever the provider holds |
| Registrar.ActiveProfile | AnnotatedDIExample/Configuration/ServiceRegistrar.cs:19 | the active profile is the configuration value under the given key, and absent when no key is given |
| Registrar.DiscoveryMeaning | AnnotatedDIExample/Configuration/ServiceRegistrar.cs:21-49 | `DiscoveryOf`, built from `Candidates` and `BeanMethods`, finds as components, configurations and bean methods exactly the scanned, annotated classes and the `[Bean]` methods whose conditions hold |
| Registrar.BeanMethodsMember | AnnotatedDIExample/Configuration/ServiceRegistrar.cs:34-43 | `BeanMethods` holds a bean method iff its class is a loaded, scanned configuration whose conditions hold and the method is one of its `[Bean]` methods whose conditions hold |
| Registrar.BeansBelongToConfigurations | AnnotatedDIExample/Configuration/ServiceRegistrar.cs:34-43 | every bean method's configuration is a discovered configuration |
| Registrar.DiscoverGraph | AnnotatedDIExample/Configuration/ServiceRegistrar.cs:21-142 | steps 1 to 3 compute exactly `DiscoveryOf` and the dependency graph of what it finds, and that graph is well formed |
| Registrar.DiscoveredGraphValid | AnnotatedDIExample/Configuration/ServiceRegistrar.cs:66-142 | the graph of what discovery finds has distinct keys and every dependency is a key, so `graph[node]` in `Visit` never fails |
| Registrar.RegistrationFromMeaning | AnnotatedDIExample/Configuration/ServiceRegistrar.cs:144-240 | the call fails with a cyclic-dependency error iff the dependency graph has a cycle; then the collection is unchanged and the error carries the printed chain of the cycle `DfsOrder` meets. Otherwise the nodes are created in the order of `DfsOrder`, a topological order, and the collection and the exception are those of `Instantiation`, so an exception keeps what was registered before it |
| Registrar.RegistrationFromOrdered | AnnotatedDIExample/Configuration/ServiceRegistrar.cs:144-240 | when the search finds an order, the registration is the instantiation loop's over that order, and its exception, if any, is not a cyclic dependency |
| Registrar.RegisterAnnotatedServices | AnnotatedDIExample/Configuration/ServiceRegistrar.cs:12-241 | the method computes exactly `RegistrationOf`: steps 4 and 5 (`RegistrationFrom`) over what `DiscoveryOf` finds with the `ActiveProfile`, starting from the caller's collection and empty dictionaries |

`Registrar.GraphOf`, `Registrar.RegistrationFrom` and `Registrar.RegistrationOf` are specification functions without rows of their own: the rows for `DiscoverGraph`, `RegistrationFromMeaning` and `RegisterAnnotatedServices` state what they compute.

## Left out

- Reflection, `dynamic` and attribute lookup are not modelled. They are the record `TypeInfo`. `[Repository]` derives from `[Service]`, so one `service` field stands for both.
- `HasLifetime` and `GetLifetime` (lines 379-390) become the lifetime stored in that field, with singleton as the default.
- `Activator.CreateInstance`, `MethodInfo.Invoke` and the base service provider are uninterpreted functions of `Host`. Exceptions thrown by user constructors and bean methods are not modelled.
- `BuildServiceProvider` is not modelled. The provider is taken as built from the service collection before the call.
- Assembly scanning and `SafeGetTypes` are not modelled, because they are I/O. The model takes the list of loaded types as input.
- `TypeComparer` is identifier equality.
- The collection built for `IEnumerable<T>` is not type-checked. `List<T>.Add` of an item of the wrong type throwing is not modelled.
- `Qualifier`, `Order` and `ComponentScanAttribute` are never read by the registrar, so they are not modelled.
- `StringComparison.OrdinalIgnoreCase` is modelled as ASCII case folding. Non-ASCII letters compare exactly.
- `char.IsWhiteSpace` is the fixed set of Unicode white-space characters.
- `Distinct()` in `ShouldScan` is dropped. It changes neither `Count > 0` nor `Any`.
- The message texts of the exceptions are not modelled. The model keeps each exception's kind and the values it names.

## Findings

| source | as written | input that shows it | evidently intended | confidence | as-written member | corrected member |
|---|---|---|---|---|---|---|
| AnnotatedDIExample/Configuration/ServiceRegistrar.cs:506 | `path.Reverse().TakeWhile(t => t != node).Reverse()` keeps the stack entries *below* the first occurrence of the revisited node, because `Stack<T>` enumerates top first and `Reverse` turns that into bottom first | A depends on B, B depends on A, searched from A: the stack is [A, B] and the message names only A | the chain from the revisited node up to the top of the stack, closed by the node: A -> B -> A | not executed | TopologicalSort.ReportedChainIsNeverACycle | TopologicalSort.DetectedIsCycle |
| AnnotatedDIExample/Configuration/ServiceRegistrar.cs:212-228 | a bean whose return type is an interface is added both to `beansByReturnType` and to `instancesByContract` under that type, and `ResolveForParam` (lines 303-307 and 336-340) gathers both lists | one bean method returning interface `I`, and a constructor asking for `I`, or for `IEnumerable<I>` | the bean is one candidate: `I` resolves to it and the collection holds it once | not executed | Instantiation.SingleInterfaceBeanIsAmbiguous | Instantiation.SingleInterfaceBeanResolvesOnce |

The registrar's error carries the chain as written, `ReportedChainAsWritten`.
The search itself works with the corrected chain, `CycleChain`.
`TopologicalSort.TopologicalSort` proves that this chain is a cycle.

For the second row, `StoreBeanListsInterfaceBeanTwice` shows the bean
listed twice, and `SingleInterfaceBeanIsAmbiguous` shows that the only bean
of an interface is then reported as ambiguous, with a count of 2, and that
a collection of it holds it twice. `StoreBeanOnce` keeps the bean once, and
`SingleInterfaceBeanResolvesOnce` proves it resolves. The registrar itself
uses `StoreBean`, as the source does. A separate, related behaviour: a
parameter of an interface type gets graph edges only to the classes whose
first interface it is, never to a bean of that interface (`ExpandMember`).
So a class may be created before the bean it needs and fail to resolve it,
unless the host's provider supplies one.

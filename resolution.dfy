/** `ResolveForParam` and `CreateByCtor`: how an argument is found for a
    parameter while the graph nodes are being created, and how a class is
    built through its greediest constructor. */
module Resolution {
  import opened Wrappers
  import opened Seqs
  import opened Reflection
  import opened DependencyGraph

  /** The four dictionaries of the instantiation phase. */
  datatype Registry = Registry(
    createdConcrete: map<TypeId, Instance>,
    instancesByContract: map<TypeId, seq<Instance>>,
    configInstances: map<TypeId, Instance>,
    beansByReturnType: map<TypeId, seq<Instance>>)

  /** The instances the registrar holds for `t`: those registered under the
      contract `t`, then the beans returning `t`. */
  function Registered(reg: Registry, t: TypeId): seq<Instance>
  {
    Lookup(reg.instancesByContract, t) + Lookup(reg.beansByReturnType, t)
  }

  /** The items of what the base provider returns for `IEnumerable<T>`; an
      answer that is not a collection is ignored, like a failed `as` cast. */
  function ExternalItems(answer: Option<Instance>): seq<Instance>
  {
    if answer.Some? && answer.value.ListOf? then answer.value.items else []
  }

  /** The exceptions `ResolveForParam` throws. */
  predicate ResolutionError(e: Error)
  {
    e.AmbiguousDependency? || e.UnresolvedContract? || e.UnresolvedDependency?
  }

  /** The argument `ResolveForParam` produces for a parameter of type
      `requested`, or the exception it throws. */
  function Resolve(meta: Metadata, reg: Registry, host: Host, requested: TypeId): (r: Result<Instance, Error>)
    ensures meta(requested).enumerableOf.Some? ==> r.Ok?
    ensures r.Err? ==> ResolutionError(r.error)
  {
    match meta(requested).enumerableOf
    case Some(t) => Ok(ListOf(t, Registered(reg, t) + ExternalItems(host.provider(requested))))
    case None =>
      if requested in reg.createdConcrete then Ok(reg.createdConcrete[requested])
      else if meta(requested).isInterface then
        var all := Registered(reg, requested);
        if |all| == 1 then Ok(all[0])
        else if |all| > 1 then Err(AmbiguousDependency(requested, |all|))
        else if host.provider(requested).Some? then Ok(host.provider(requested).value)
        else Err(UnresolvedContract(requested))
      else if host.provider(requested).Some? then Ok(host.provider(requested).value)
      else Err(UnresolvedDependency(requested))
  }

  /** The loops of the collection branch of `ResolveForParam`: the
      registered instances and the provider's items are gathered, then copied
      one by one into a fresh `List<T>`. */
  method CollectionFor(reg: Registry, t: TypeId, external: seq<Instance>) returns (items: seq<Instance>)
    ensures items == Registered(reg, t) + external
  {
    var list: seq<Instance> := [];
    list := list + Lookup(reg.instancesByContract, t);
    list := list + Lookup(reg.beansByReturnType, t);
    var k := 0;
    while k < |external|
      invariant k <= |external|
      invariant list == Registered(reg, t) + external[..k]
    {
      assert external[..k + 1] == external[..k] + [external[k]];
      list := list + [external[k]];
      k := k + 1;
    }
    assert external[..k] == external;
    items := [];
    k := 0;
    while k < |list|
      invariant k <= |list|
      invariant items == list[..k]
    {
      assert list[..k + 1] == list[..k] + [list[k]];
      items := items + [list[k]];
      k := k + 1;
    }
    assert list[..k] == list;
  }

  method ResolveForParam(meta: Metadata, reg: Registry, host: Host, requested: TypeId) returns (r: Result<Instance, Error>)
    ensures r == Resolve(meta, reg, host, requested)
  {
    if meta(requested).enumerableOf.Some? {
      var t := meta(requested).enumerableOf.value;
      var concreteList := CollectionFor(reg, t, ExternalItems(host.provider(requested)));
      return Ok(ListOf(t, concreteList));
    }
    if requested in reg.createdConcrete {
      return Ok(reg.createdConcrete[requested]);
    }
    if meta(requested).isInterface {
      var all := Lookup(reg.instancesByContract, requested) + Lookup(reg.beansByReturnType, requested);
      if |all| == 1 {
        return Ok(all[0]);
      }
      if |all| > 1 {
        return Err(AmbiguousDependency(requested, |all|));
      }
      var external := host.provider(requested);
      if external.Some? {
        return Ok(external.value);
      }
      return Err(UnresolvedContract(requested));
    }
    var ext := host.provider(requested);
    if ext.Some? {
      return Ok(ext.value);
    }
    return Err(UnresolvedDependency(requested));
  }

  /** A collection parameter always resolves, to a list of its element type
      holding every instance registered for that type under a contract or as
      a bean, and every item the base provider has, and nothing else. */
  lemma CollectionsAlwaysResolve(meta: Metadata, reg: Registry, host: Host, requested: TypeId, x: Instance)
    requires meta(requested).enumerableOf.Some?
    ensures var r := Resolve(meta, reg, host, requested);
            && r.Ok? && r.value.ListOf?
            && r.value.elementType == meta(requested).enumerableOf.value
            && r.value.items[..|Lookup(reg.instancesByContract, r.value.elementType)|] == Lookup(reg.instancesByContract, r.value.elementType)
            && |r.value.items| == |Lookup(reg.instancesByContract, r.value.elementType)|
                                  + |Lookup(reg.beansByReturnType, r.value.elementType)|
                                  + |ExternalItems(host.provider(requested))|
            && (x in r.value.items <==>
                  || x in Lookup(reg.instancesByContract, r.value.elementType)
                  || x in Lookup(reg.beansByReturnType, r.value.elementType)
                  || x in ExternalItems(host.provider(requested)))
  {
  }

  /** The registrar's own instances take precedence over the base provider:
      a created concrete class, or an interface with at least one registered
      instance, resolves the same whatever the provider holds. */
  lemma RegistryTakesPrecedence(meta: Metadata, reg: Registry, host1: Host, host2: Host, requested: TypeId)
    requires meta(requested).enumerableOf.None?
    requires requested in reg.createdConcrete || (meta(requested).isInterface && |Registered(reg, requested)| >= 1)
    ensures Resolve(meta, reg, host1, requested) == Resolve(meta, reg, host2, requested)
    ensures requested in reg.createdConcrete ==> Resolve(meta, reg, host1, requested) == Ok(reg.createdConcrete[requested])
  {
  }

  /** A single interface request, when no concrete instance of that type
      exists: a lone candidate (contract instances, then beans) is the
      answer; with none, the base provider answers or the contract is
      unresolved. */
  lemma InterfaceResolution(meta: Metadata, reg: Registry, host: Host, requested: TypeId)
    requires meta(requested).enumerableOf.None? && requested !in reg.createdConcrete && meta(requested).isInterface
    ensures |Registered(reg, requested)| == 1 ==> Resolve(meta, reg, host, requested) == Ok(Registered(reg, requested)[0])
    ensures Registered(reg, requested) == [] ==>
            Resolve(meta, reg, host, requested) ==
              if host.provider(requested).Some? then Ok(host.provider(requested).value) else Err(UnresolvedContract(requested))
  {
  }

  /** A single-instance parameter is ambiguous exactly when it is an
      interface, no concrete instance of that type was created, and more than
      one instance is registered for it; the error reports how many. */
  lemma AmbiguityExactly(meta: Metadata, reg: Registry, host: Host, requested: TypeId)
    ensures var r := Resolve(meta, reg, host, requested);
            r.Err? && r.error.AmbiguousDependency? <==>
              && meta(requested).enumerableOf.None?
              && requested !in reg.createdConcrete
              && meta(requested).isInterface
              && |Registered(reg, requested)| > 1
    ensures var r := Resolve(meta, reg, host, requested);
            r.Err? && r.error.AmbiguousDependency? ==>
              r.error == AmbiguousDependency(requested, |Registered(reg, requested)|)
  {
  }

  /** A parameter is left unresolved exactly when neither the registrar nor
      the base provider has anything for it; the error says whether an
      interface or a class was requested. */
  lemma UnresolvedExactly(meta: Metadata, reg: Registry, host: Host, requested: TypeId)
    ensures var r := Resolve(meta, reg, host, requested);
            r.Err? && (r.error.UnresolvedContract? || r.error.UnresolvedDependency?) <==>
              && meta(requested).enumerableOf.None?
              && requested !in reg.createdConcrete
              && (meta(requested).isInterface ==> Registered(reg, requested) == [])
              && host.provider(requested).None?
    ensures var r := Resolve(meta, reg, host, requested);
            r.Err? && r.error.UnresolvedContract? ==> meta(requested).isInterface && r.error.contract == requested
    ensures var r := Resolve(meta, reg, host, requested);
            r.Err? && r.error.UnresolvedDependency? ==> !meta(requested).isInterface && r.error.requested == requested
  {
  }

  /** The arguments for a parameter list, resolved left to right; the first
      failure is the one reported (`Select(...).ToArray()`). */
  function ResolveAll(meta: Metadata, reg: Registry, host: Host, params: seq<TypeId>): (r: Result<seq<Instance>, Error>)
    ensures r.Err? ==> ResolutionError(r.error)
  {
    if params == [] then Ok([])
    else
      match ResolveAll(meta, reg, host, params[..|params| - 1])
      case Err(e) => Err(e)
      case Ok(args) =>
        match Resolve(meta, reg, host, params[|params| - 1])
        case Err(e) => Err(e)
        case Ok(x) => Ok(args + [x])
  }

  /** `ResolveForParam` is not given the configuration instances, so they
      never change what a parameter list resolves to. */
  lemma {:induction false} ResolveAllIgnoresConfigurations(meta: Metadata, reg: Registry, host: Host, params: seq<TypeId>,
                                                           configs: map<TypeId, Instance>)
    ensures ResolveAll(meta, reg.(configInstances := configs), host, params) == ResolveAll(meta, reg, host, params)
  {
    if params != [] {
      ResolveAllIgnoresConfigurations(meta, reg, host, params[..|params| - 1], configs);
      assert Registered(reg.(configInstances := configs), params[|params| - 1]) == Registered(reg, params[|params| - 1]);
    }
  }

  /** The arguments are found exactly when every parameter resolves, and the
      argument at each position is what that parameter resolves to;
      otherwise the error is that of the first parameter that fails. */
  lemma {:induction false} ResolveAllMeaning(meta: Metadata, reg: Registry, host: Host, params: seq<TypeId>)
    ensures ResolveAll(meta, reg, host, params).Ok? <==>
            forall j :: 0 <= j < |params| ==> Resolve(meta, reg, host, params[j]).Ok?
    ensures ResolveAll(meta, reg, host, params).Ok? ==>
            var args := ResolveAll(meta, reg, host, params).value;
            |args| == |params| && forall j :: 0 <= j < |params| ==> args[j] == Resolve(meta, reg, host, params[j]).value
    ensures ResolveAll(meta, reg, host, params).Err? ==>
            exists j :: && 0 <= j < |params|
                        && Resolve(meta, reg, host, params[j]) == Err(ResolveAll(meta, reg, host, params).error)
                        && forall i :: 0 <= i < j ==> Resolve(meta, reg, host, params[i]).Ok?
  {
    if params != [] {
      var init := params[..|params| - 1];
      ResolveAllMeaning(meta, reg, host, init);
      assert forall j :: 0 <= j < |init| ==> init[j] == params[j];
    }
  }

  /** The loop behind `Select(...).ToArray()`: it stops at the first
      parameter that cannot be resolved. */
  method ResolveArguments(meta: Metadata, reg: Registry, host: Host, params: seq<TypeId>) returns (r: Result<seq<Instance>, Error>)
    ensures r == ResolveAll(meta, reg, host, params)
  {
    var args: seq<Instance> := [];
    var k := 0;
    while k < |params|
      invariant k <= |params|
      invariant ResolveAll(meta, reg, host, params[..k]) == Ok(args)
    {
      assert params[..k + 1][..k] == params[..k];
      var arg := ResolveForParam(meta, reg, host, params[k]);
      if arg.Err? {
        assert params[..k + 1][k] == params[k];
        ResolveAllPrefixError(meta, reg, host, params, k + 1);
        return Err(arg.error);
      }
      args := args + [arg.value];
      k := k + 1;
    }
    assert params[..k] == params;
    return Ok(args);
  }

  /** Once a prefix of the parameters fails, the whole list fails the same way. */
  lemma {:induction false} ResolveAllPrefixError(meta: Metadata, reg: Registry, host: Host, params: seq<TypeId>, k: nat)
    requires k <= |params|
    requires ResolveAll(meta, reg, host, params[..k]).Err?
    ensures ResolveAll(meta, reg, host, params) == ResolveAll(meta, reg, host, params[..k])
    decreases |params| - k
  {
    if k < |params| {
      assert params[..k + 1][..k] == params[..k];
      ResolveAllPrefixError(meta, reg, host, params, k + 1);
    } else {
      assert params[..k] == params;
    }
  }

  /** What `CreateByCtor` produces: the instance built from the arguments of
      the greediest constructor, or the exception it throws. */
  function Creation(meta: Metadata, reg: Registry, host: Host, t: TypeId): (r: Result<Instance, Error>)
    ensures r.Err? ==> r.error == MissingConstructor(t) || ResolutionError(r.error)
  {
    match PickGreediestCtor(meta(t).ctors)
    case None => Err(MissingConstructor(t))
    case Some(i) =>
      match ResolveAll(meta, reg, host, meta(t).ctors[i])
      case Err(e) => Err(e)
      case Ok(args) => Ok(host.construct(t, args))
  }

  method CreateByCtor(meta: Metadata, reg: Registry, host: Host, t: TypeId) returns (r: Result<Instance, Error>)
    ensures r == Creation(meta, reg, host, t)
  {
    var ctor := PickGreediestCtor(meta(t).ctors);
    if ctor.None? {
      return Err(MissingConstructor(t));
    }
    var args := ResolveArguments(meta, reg, host, meta(t).ctors[ctor.value]);
    if args.Err? {
      return Err(args.error);
    }
    return Ok(host.construct(t, args.value));
  }

  /** A class without a public constructor cannot be created, and only such
      a class fails with that error; any other class is built from one
      resolved argument per parameter of a constructor with the most
      parameters, or fails with the error of its first unresolvable
      parameter. */
  lemma CreationMeaning(meta: Metadata, reg: Registry, host: Host, t: TypeId)
    ensures Creation(meta, reg, host, t) == Err(MissingConstructor(t)) <==> meta(t).ctors == []
    ensures Creation(meta, reg, host, t).Ok? ==>
            exists i, args :: && 0 <= i < |meta(t).ctors|
                              && (forall j :: 0 <= j < |meta(t).ctors| ==> |meta(t).ctors[j]| <= |meta(t).ctors[i]|)
                              && |args| == |meta(t).ctors[i]|
                              && (forall j :: 0 <= j < |args| ==> Resolve(meta, reg, host, meta(t).ctors[i][j]) == Ok(args[j]))
                              && Creation(meta, reg, host, t) == Ok(host.construct(t, args))
    ensures Creation(meta, reg, host, t).Err? && meta(t).ctors != [] ==>
            exists i, j :: && 0 <= i < |meta(t).ctors|
                           && (forall k :: 0 <= k < |meta(t).ctors| ==> |meta(t).ctors[k]| <= |meta(t).ctors[i]|)
                           && 0 <= j < |meta(t).ctors[i]|
                           && (forall k :: 0 <= k < j ==> Resolve(meta, reg, host, meta(t).ctors[i][k]).Ok?)
                           && Resolve(meta, reg, host, meta(t).ctors[i][j]) == Creation(meta, reg, host, t)
  {
    var ctor := PickGreediestCtor(meta(t).ctors);
    if ctor.Some? {
      var params := meta(t).ctors[ctor.value];
      ResolveAllMeaning(meta, reg, host, params);
      var all := ResolveAll(meta, reg, host, params);
      if all.Ok? {
        assert forall j :: 0 <= j < |all.value| ==> Resolve(meta, reg, host, params[j]) == Ok(all.value[j]);
      } else {
        UnresolvedIsNotMissingConstructor(meta, reg, host, params);
      }
    }
  }

  /** A parameter never fails with a missing-constructor error. */
  lemma UnresolvedIsNotMissingConstructor(meta: Metadata, reg: Registry, host: Host, params: seq<TypeId>)
    ensures ResolveAll(meta, reg, host, params).Err? ==> !ResolveAll(meta, reg, host, params).error.MissingConstructor?
  {
    ResolveAllMeaning(meta, reg, host, params);
  }
}

/** What the registrar reads from reflection, as plain data. A type is an
    identifier; everything the registrar asks of it (`Namespace`,
    `IsInterface`, `IEnumerable<T>`, its attributes, `GetInterfaces`,
    `GetConstructors`, `GetMethods`) is a field of its `TypeInfo`. */
module Reflection {
  import opened Wrappers
  import opened ProfileAttribute

  type TypeId = nat

  /** `ServiceLifetime`. */
  datatype Lifetime = Singleton | Scoped | Transient

  /** `[ConditionalOnProperty(name, havingValue, matchIfMissing)]`. */
  datatype PropertyCondition = PropertyCondition(name: string, havingValue: string, matchIfMissing: bool)

  /** The conditional attributes a class or a method may carry. */
  datatype Conditions = Conditions(profile: Option<Profile>, onProperty: Option<PropertyCondition>)

  /** A public instance method: its name, whether it carries `[Bean]`, its
      return type, its parameter types and its conditions. */
  datatype MethodDecl = MethodDecl(
    name: string,
    isBean: bool,
    returnType: TypeId,
    params: seq<TypeId>,
    conditions: Conditions)

  /** The reflection facts about one type.
      `enumerableOf` is `Some(t)` exactly for the constructed type `IEnumerable<t>`.
      `service` is the lifetime of a `[Service]` or `[Repository]` attribute
      (the latter derives from the former, so one field stands for both).
      `ctors` lists the parameter types of each public constructor in
      declaration order. */
  datatype TypeInfo = TypeInfo(
    ns: Option<string>,
    isInterface: bool,
    enumerableOf: Option<TypeId>,
    service: Option<Lifetime>,
    isConfiguration: bool,
    interfaces: seq<TypeId>,
    ctors: seq<seq<TypeId>>,
    methods: seq<MethodDecl>,
    conditions: Conditions)

  /** Reflection over every type of the application. */
  type Metadata = TypeId -> TypeInfo

  /** `IConfiguration[key]`: `None` when the key is missing. */
  type Configuration = string -> Option<string>

  /** `ComponentScanOptions`: marker types whose namespaces are included or
      excluded; both arrays, and each of their elements, may be null. */
  datatype ScanOptions = ScanOptions(Include: Option<seq<Option<TypeId>>>, Exclude: Option<seq<Option<TypeId>>>)

  /** `BeanMeta`: a `[Bean]` method together with the configuration class
      that declares it. */
  datatype BeanMeta = BeanMeta(configurationType: TypeId, beanMethod: MethodDecl)
  {
    function ReturnType(): TypeId { beanMethod.returnType }
  }

  /** An object the registrar handles without looking inside it. `ListOf` is
      a `List<T>` built for an `IEnumerable<T>` parameter. */
  datatype Instance = Obj(handle: nat) | ListOf(elementType: TypeId, items: seq<Instance>)

  /** The services outside the registrar: the base service provider
      (`GetService`), `Activator.CreateInstance` and `MethodInfo.Invoke`,
      whose `None` is a bean method returning null. */
  datatype Host = Host(
    provider: TypeId -> Option<Instance>,
    construct: (TypeId, seq<Instance>) -> Instance,
    invoke: (Instance, MethodDecl, seq<Instance>) -> Option<Instance>)

  /** The `InvalidOperationException`s the registrar throws. */
  datatype Error =
    | CyclicDependency(chain: seq<TypeId>)
    | AmbiguousDependency(contract: TypeId, found: nat)
    | UnresolvedContract(contract: TypeId)
    | UnresolvedDependency(requested: TypeId)
    | MissingConstructor(t: TypeId)
    | NullBean(configurationType: TypeId, methodName: string)

  /** `GetInterfaces().FirstOrDefault()`. */
  function FirstInterface(meta: Metadata, t: TypeId): (r: Option<TypeId>)
    ensures r.None? <==> meta(t).interfaces == []
    ensures r.Some? ==> r.value in meta(t).interfaces && r.value == meta(t).interfaces[0]
  {
    if meta(t).interfaces == [] then None else Some(meta(t).interfaces[0])
  }
}

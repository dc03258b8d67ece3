/** The registration filters: profiles and `ConditionalOnProperty` decide
    whether a class or a `[Bean]` method is kept (`ShouldRegister`), and the
    component-scan namespaces decide whether a type is looked at at all
    (`ShouldScan`). */
module Filters {
  import opened Wrappers
  import opened Text
  import opened ProfileAttribute
  import opened Reflection

  /** `EqualsIgnoreCaseTrim`: both sides trimmed, then compared ignoring case. */
  predicate EqualsIgnoreCaseTrim(a: string, b: string): (r: bool)
    ensures Trim(a) == Trim(b) ==> r
    ensures r ==> |Trim(a)| == |Trim(b)|
  {
    EqualsIgnoreCase(Trim(a), Trim(b))
  }

  /** Trimming is idempotent. */
  lemma TrimTrim(s: string)
    ensures Trim(Trim(s)) == Trim(s)
  {
    TrimIsBlankFramedInfix(s);
    TrimOfTrimmed(Trim(s));
  }

  /** The comparison is an equivalence that cannot see surrounding white
      space: pre-trimming either side changes nothing. */
  lemma EqualsIgnoreCaseTrimProperties(a: string, b: string, c: string)
    ensures EqualsIgnoreCaseTrim(a, a)
    ensures EqualsIgnoreCaseTrim(a, b) ==> EqualsIgnoreCaseTrim(b, a)
    ensures EqualsIgnoreCaseTrim(a, b) && EqualsIgnoreCaseTrim(b, c) ==> EqualsIgnoreCaseTrim(a, c)
    ensures EqualsIgnoreCaseTrim(Trim(a), b) == EqualsIgnoreCaseTrim(a, b)
  {
    EqualsIgnoreCaseIsEquivalence(Trim(a), Trim(b), Trim(c));
    TrimTrim(a);
  }

  /** `list.Any(x => EqualsIgnoreCaseTrim(x, profile))`. */
  function Mentions(list: seq<string>, profile: string): (r: bool)
    ensures r <==> exists i :: 0 <= i < |list| && EqualsIgnoreCaseTrim(list[i], profile)
  {
    if list == [] then false
    else EqualsIgnoreCaseTrim(list[0], profile) || Mentions(list[1..], profile)
  }

  /** The `[Profile]` rule. With an active (non-blank) profile, a member is
      dropped when an exclude entry names it, or when there are include
      entries and none names it. Without one, it is dropped exactly when it
      has include entries. */
  function ProfileAllows(attr: Option<Profile>, profile: Option<string>): (r: bool)
    ensures attr.None? ==> r
    ensures attr.Some? && !IsNullOrWhiteSpace(profile) ==>
      (r <==> (forall i :: 0 <= i < |attr.value.Exclude| ==> !EqualsIgnoreCaseTrim(attr.value.Exclude[i], profile.value))
              && (attr.value.Include == [] ||
                  exists i :: 0 <= i < |attr.value.Include| && EqualsIgnoreCaseTrim(attr.value.Include[i], profile.value)))
    ensures attr.Some? && IsNullOrWhiteSpace(profile) ==> (r <==> attr.value.Include == [])
  {
    match attr
    case None => true
    case Some(p) =>
      if !IsNullOrWhiteSpace(profile) then
        !Mentions(p.Exclude, profile.value) && (|p.Include| == 0 || Mentions(p.Include, profile.value))
      else
        |p.Include| == 0
  }

  /** The `[ConditionalOnProperty]` rule: a missing property yields
      `MatchIfMissing`, a present one must equal `HavingValue` ignoring case
      (without trimming). */
  function PropertyAllows(cond: Option<PropertyCondition>, config: Configuration): (r: bool)
    ensures cond.None? ==> r
    ensures cond.Some? && config(cond.value.name).None? ==> r == cond.value.matchIfMissing
    ensures cond.Some? && config(cond.value.name).Some? ==>
      (r <==> |config(cond.value.name).value| == |cond.value.havingValue| &&
              forall i :: 0 <= i < |cond.value.havingValue| ==>
                ToUpperAscii(config(cond.value.name).value[i]) == ToUpperAscii(cond.value.havingValue[i]))
  {
    match cond
    case None => true
    case Some(c) =>
      match config(c.name)
      case None => c.matchIfMissing
      case Some(v) => EqualsIgnoreCase(v, c.havingValue)
  }

  /** `ShouldRegister`: the profile rule first, then the property rule. */
  function ShouldRegister(c: Conditions, profile: Option<string>, config: Configuration): (r: bool)
    ensures r <==> ProfileAllows(c.profile, profile) && PropertyAllows(c.onProperty, config)
    ensures c.profile.None? && c.onProperty.None? ==> r
  {
    if !ProfileAllows(c.profile, profile) then false
    else PropertyAllows(c.onProperty, config)
  }

  /** The active profile is itself compared trimmed and ignoring case: two
      spellings that agree that way select the same members. */
  lemma ShouldRegisterProfileSpelling(c: Conditions, p: string, q: string, config: Configuration)
    requires EqualsIgnoreCaseTrim(p, q)
    ensures ShouldRegister(c, Some(p), config) == ShouldRegister(c, Some(q), config)
  {
    TrimEmptyIffBlank(p);
    TrimEmptyIffBlank(q);
    forall x: string
      ensures EqualsIgnoreCaseTrim(x, p) <==> EqualsIgnoreCaseTrim(x, q)
    {
      EqualsIgnoreCaseTrimProperties(x, p, q);
      EqualsIgnoreCaseTrimProperties(x, q, p);
    }
  }

  /** A blank active profile behaves exactly like no profile at all. */
  lemma ShouldRegisterBlankProfile(c: Conditions, p: string, config: Configuration)
    requires IsBlank(p)
    ensures ShouldRegister(c, Some(p), config) == ShouldRegister(c, None, config)
  {
  }

  /** An attribute such as `[Profile(include: "dev", exclude: "prod")]`, with one
      entry on each side, keeps a member exactly under an active profile that
      matches the include entry and not the exclude entry; without an active
      profile the member is dropped. */
  lemma SingleProfileRule(inc: string, exc: string, profile: Option<string>, config: Configuration)
    requires IsEntry(inc) && IsEntry(exc)
    ensures var c := Conditions(Some(NewProfile(Some(inc), Some(exc))), None);
            ShouldRegister(c, profile, config) <==>
              !IsNullOrWhiteSpace(profile) && EqualsIgnoreCaseTrim(inc, profile.value) && !EqualsIgnoreCaseTrim(exc, profile.value)
  {
    ParseProfilesOfEntry(inc);
    ParseProfilesOfEntry(exc);
  }

  /** `IsSameOrSubNamespace`: a blank namespace contains everything, a blank
      candidate lies in no non-blank namespace, otherwise the candidate is
      the namespace itself or starts with it followed by a dot. */
  function IsSameOrSubNamespace(candidate: Option<string>, ns: string): (r: bool)
    ensures IsBlank(ns) ==> r
    ensures !IsBlank(ns) && IsNullOrWhiteSpace(candidate) ==> !r
  {
    if IsBlank(ns) then true
    else if IsNullOrWhiteSpace(candidate) then false
    else candidate.value == ns || ns + "." <= candidate.value
  }

  /** Namespace containment is transitive. */
  lemma IsSameOrSubNamespaceTransitive(a: string, b: string, c: string)
    requires IsSameOrSubNamespace(Some(a), b)
    requires IsSameOrSubNamespace(Some(b), c)
    ensures IsSameOrSubNamespace(Some(a), c)
  {
    if !IsBlank(c) && a != c && b != c && a != b {
      assert (c + ".") <= b;
      assert (b + ".") <= a;
      assert a[..|c| + 1] == b[..|c| + 1];
    }
  }

  /** Containment in a non-blank namespace is containment of dot-separated
      segments: `c` lies in `ns` exactly when the segments of `ns` are a
      prefix of those of `c`. */
  lemma IsSameOrSubNamespaceSegments(c: string, ns: string)
    requires !IsBlank(ns) && !IsBlank(c)
    ensures IsSameOrSubNamespace(Some(c), ns) <==> Split(ns, '.') <= Split(c, '.')
  {
    if ns + "." <= c {
      var rest := c[|ns| + 1..];
      assert c == ns + ['.'] + rest;
      SplitConcat(ns, rest, '.');
    }
    if Split(ns, '.') <= Split(c, '.') {
      var a := Split(ns, '.');
      var b := Split(c, '.')[|a|..];
      assert Split(c, '.') == a + b;
      JoinSplit(c, '.');
      JoinSplit(ns, '.');
      if b != [] {
        JoinConcat('.', a, b);
        assert c == ns + ['.'] + Join('.', b);
        assert (ns + ".") <= c;
      } else {
        assert a + b == a;
      }
    }
  }

  /** Joining two non-empty lists of segments puts one separator between them. */
  lemma {:induction false} JoinConcat(sep: char, a: seq<string>, b: seq<string>)
    requires a != [] && b != []
    ensures Join(sep, a + b) == Join(sep, a) + [sep] + Join(sep, b)
  {
    assert (a + b)[0] == a[0];
    if |a| > 1 {
      assert (a + b)[1..] == a[1..] + b;
      JoinConcat(sep, a[1..], b);
    } else {
      assert (a + b)[1..] == b;
    }
  }

  /** The marker has a usable namespace: it is not null and its namespace is
      not blank. */
  predicate HasNamespace(meta: Metadata, marker: Option<TypeId>)
  {
    marker.Some? && meta(marker.value).ns.Some? && !IsBlank(meta(marker.value).ns.value)
  }

  /** `markers.Where(x => x != null).Select(x => x.Namespace)
      .Where(ns => !IsNullOrWhiteSpace(ns))`. */
  function Namespaces(meta: Metadata, markers: seq<Option<TypeId>>): (r: seq<string>)
    ensures |r| <= |markers|
    ensures forall k :: 0 <= k < |r| ==> exists i :: 0 <= i < |markers| && HasNamespace(meta, markers[i]) && meta(markers[i].value).ns.value == r[k]
    ensures forall i :: 0 <= i < |markers| && HasNamespace(meta, markers[i]) ==> meta(markers[i].value).ns.value in r
  {
    if markers == [] then []
    else
      var rest := Namespaces(meta, markers[1..]);
      assert forall i :: 1 <= i < |markers| ==> markers[i] == markers[1..][i - 1];
      if HasNamespace(meta, markers[0]) then [meta(markers[0].value).ns.value] + rest else rest
  }

  /** `namespaces.Any(ns => IsSameOrSubNamespace(candidate, ns))`. */
  function InAnyNamespace(candidate: Option<string>, namespaces: seq<string>): (r: bool)
    ensures r <==> exists k :: 0 <= k < |namespaces| && IsSameOrSubNamespace(candidate, namespaces[k])
  {
    if namespaces == [] then false
    else IsSameOrSubNamespace(candidate, namespaces[0]) || InAnyNamespace(candidate, namespaces[1..])
  }

  /** Some marker with a usable namespace contains `t`. */
  predicate MarkedBy(meta: Metadata, t: TypeId, markers: seq<Option<TypeId>>)
  {
    exists i :: 0 <= i < |markers| && HasNamespace(meta, markers[i]) &&
      IsSameOrSubNamespace(meta(t).ns, meta(markers[i].value).ns.value)
  }

  /** `ShouldScan`: with options, a type outside every usable include
      namespace (when there is one) or inside a usable exclude namespace is
      skipped; without options every type is scanned. */
  function ShouldScan(meta: Metadata, t: TypeId, options: Option<ScanOptions>): (r: bool)
    ensures options.None? ==> r
    ensures options.Some? ==>
      (r <==>
        (|| options.value.Include.None?
         || (forall i :: 0 <= i < |options.value.Include.value| ==> !HasNamespace(meta, options.value.Include.value[i]))
         || MarkedBy(meta, t, options.value.Include.value))
        && (options.value.Exclude.None? || !MarkedBy(meta, t, options.value.Exclude.value)))
  {
    match options
    case None => true
    case Some(o) =>
      var includeOk :=
        if o.Include.Some? && |o.Include.value| > 0 then
          var includeNs := Namespaces(meta, o.Include.value);
          !(|includeNs| > 0 && !InAnyNamespace(meta(t).ns, includeNs))
        else true;
      var excludeOk :=
        if o.Exclude.Some? && |o.Exclude.value| > 0 then
          !InAnyNamespace(meta(t).ns, Namespaces(meta, o.Exclude.value))
        else true;
      includeOk && excludeOk
  }
}

/** The contract index `contractToImpl`: each service or repository class is
    listed under its first interface, in discovery order. */
module ContractIndex {
  import opened Wrappers
  import opened Seqs
  import opened Reflection

  /** The classes of `impls` whose first interface is `contract`, in the order
      of `impls`. */
  function ImplementersOf(meta: Metadata, impls: seq<TypeId>, contract: TypeId): seq<TypeId>
  {
    if impls == [] then []
    else
      var rest := ImplementersOf(meta, impls[..|impls| - 1], contract);
      var t := impls[|impls| - 1];
      if FirstInterface(meta, t) == Some(contract) then rest + [t] else rest
  }

  /** A class is listed under a contract exactly when it was discovered and
      that contract is its first interface. */
  lemma {:induction false} ImplementersOfMember(meta: Metadata, impls: seq<TypeId>, contract: TypeId, t: TypeId)
    ensures t in ImplementersOf(meta, impls, contract) <==> t in impls && FirstInterface(meta, t) == Some(contract)
  {
    if impls != [] {
      var init := impls[..|impls| - 1];
      ImplementersOfMember(meta, init, contract, t);
      assert impls == init + [impls[|impls| - 1]];
    }
  }

  /** Listing distributes over concatenation: discovery order is kept. */
  lemma {:induction false} ImplementersOfConcat(meta: Metadata, a: seq<TypeId>, b: seq<TypeId>, contract: TypeId)
    ensures ImplementersOf(meta, a + b, contract) == ImplementersOf(meta, a, contract) + ImplementersOf(meta, b, contract)
  {
    if b == [] {
      assert a + b == a;
    } else {
      var c := a + b;
      assert c[..|c| - 1] == a + b[..|b| - 1];
      ImplementersOfConcat(meta, a, b[..|b| - 1], contract);
    }
  }

  /** `index` is the contract index of `impls`: every contract holds its
      implementers, and only contracts with at least one implementer are
      keys. */
  ghost predicate IsContractIndex(meta: Metadata, impls: seq<TypeId>, index: map<TypeId, seq<TypeId>>)
  {
    && (forall c :: c in index ==> index[c] != [])
    && (forall c :: Lookup(index, c) == ImplementersOf(meta, impls, c))
  }

  /** Listing one more class extends the list of its first interface only. */
  lemma ContractIndexStep(meta: Metadata, impls: seq<TypeId>, index: map<TypeId, seq<TypeId>>, t: TypeId)
    requires IsContractIndex(meta, impls, index)
    ensures FirstInterface(meta, t).None? ==> IsContractIndex(meta, impls + [t], index)
    ensures FirstInterface(meta, t).Some? ==>
      var c := FirstInterface(meta, t).value;
      IsContractIndex(meta, impls + [t], index[c := Lookup(index, c) + [t]])
  {
    var s := impls + [t];
    assert s[..|s| - 1] == impls;
    if FirstInterface(meta, t).Some? {
      var c := FirstInterface(meta, t).value;
      var index' := index[c := Lookup(index, c) + [t]];
      forall d
        ensures Lookup(index', d) == ImplementersOf(meta, s, d)
      {
        assert Lookup(index, d) == ImplementersOf(meta, impls, d);
      }
    }
  }

  /** The loop that fills `contractToImpl`. */
  method BuildContractIndex(meta: Metadata, impls: seq<TypeId>) returns (index: map<TypeId, seq<TypeId>>)
    ensures IsContractIndex(meta, impls, index)
  {
    index := map[];
    var k := 0;
    while k < |impls|
      invariant k <= |impls|
      invariant IsContractIndex(meta, impls[..k], index)
    {
      var impl := impls[k];
      ContractIndexStep(meta, impls[..k], index, impl);
      assert impls[..k + 1] == impls[..k] + [impl];
      var firstInterface := FirstInterface(meta, impl);
      if firstInterface.Some? {
        var list := if firstInterface.value in index then index[firstInterface.value] else [];
        index := index[firstInterface.value := list + [impl]];
      }
      k := k + 1;
    }
    assert impls[..k] == impls;
  }

  /** What the index promises about a single class: it is listed under its
      first interface and under nothing else, so a class without interfaces
      is listed nowhere; the keys are exactly the first interfaces of the
      discovered classes. */
  lemma ContractIndexListing(meta: Metadata, impls: seq<TypeId>, index: map<TypeId, seq<TypeId>>, t: TypeId, c: TypeId)
    requires IsContractIndex(meta, impls, index)
    ensures c in index && t in index[c] <==> t in impls && FirstInterface(meta, t) == Some(c)
    ensures c in index <==> exists i :: 0 <= i < |impls| && FirstInterface(meta, impls[i]) == Some(c)
  {
    ImplementersOfMember(meta, impls, c, t);
    assert Lookup(index, c) == ImplementersOf(meta, impls, c);
    if c in index {
      ImplementersOfMember(meta, impls, c, index[c][0]);
    }
    if exists i :: 0 <= i < |impls| && FirstInterface(meta, impls[i]) == Some(c) {
      var i :| 0 <= i < |impls| && FirstInterface(meta, impls[i]) == Some(c);
      ImplementersOfMember(meta, impls, c, impls[i]);
    }
  }

  /** The contract index of `impls`, written as a map from each first
      interface to its implementers. */
  function ContractIndexOf(meta: Metadata, impls: seq<TypeId>): map<TypeId, seq<TypeId>>
  {
    map c | c in (set t | t in impls && FirstInterface(meta, t).Some? :: FirstInterface(meta, t).value) ::
      ImplementersOf(meta, impls, c)
  }

  /** There is only one contract index of a list of classes, so the loop's
      dictionary is determined by the classes alone. */
  lemma ContractIndexUnique(meta: Metadata, impls: seq<TypeId>, index: map<TypeId, seq<TypeId>>)
    requires IsContractIndex(meta, impls, index)
    ensures index == ContractIndexOf(meta, impls)
  {
    var expected := ContractIndexOf(meta, impls);
    forall c
      ensures c in index <==> c in expected
    {
      assert Lookup(index, c) == ImplementersOf(meta, impls, c);
      if c in index {
        ImplementersOfMember(meta, impls, c, index[c][0]);
      }
      if c in expected {
        var t :| t in impls && FirstInterface(meta, t) == Some(c);
        ImplementersOfMember(meta, impls, c, t);
      }
    }
    forall c | c in index
      ensures index[c] == expected[c]
    {
      assert Lookup(index, c) == ImplementersOf(meta, impls, c);
    }
  }
}

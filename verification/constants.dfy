/** Constant resolution (`valueForConstantWithName:`): a modified value hides
    the themes' value; a value that references another constant is followed
    until a literal is reached; a name met twice on the way is a cycle. */
module Constants {
  import opened Results
  import opened ThemeSource
  import opened Overrides

  datatype ConstantError = ConstantNotFound(name: Name) | CircularConstantReference(name: Name)

  /** The value a constant name stands for before references are followed:
      the modification if there is one, else the earliest alternative theme
      defining it, else the default theme. */
  function Candidate(reg: Registry, mods: Modifications, name: Name): (r: Option<Value>)
    ensures name in mods.constants ==> r == Some(mods.constants[name])
    ensures name !in mods.constants ==>
              forall i :: 0 <= i < |reg.alternatives| && name in reg.alternatives[i].constants
                          && (forall j :: 0 <= j < i ==> name !in reg.alternatives[j].constants)
                          ==> r == Some(reg.alternatives[i].constants[name])
    ensures name !in mods.constants && (forall i :: 0 <= i < |reg.alternatives| ==> name !in reg.alternatives[i].constants)
            ==> r == Lookup(reg.default.constants, name)
    ensures r.Some? ==> name in ConstantNames(reg, mods)
  {
    if name in mods.constants then Some(mods.constants[name])
    else
      RawConstantIsLayered(reg, name);
      RawConstant(reg, name)
  }

  /** Every constant name that a theme or a modification defines. */
  function ConstantNames(reg: Registry, mods: Modifications): set<Name>
  {
    mods.constants.Keys + KeysOf(ConstantLayers(reg))
  }

  /** Follows references from `name`; `visited` holds the names already met
      in this resolution. */
  function Resolve(reg: Registry, mods: Modifications, name: Name, visited: set<Name>): (r: Result<PlistValue, ConstantError>)
    ensures name in visited ==> r == Err(CircularConstantReference(name))
    ensures name !in visited && Candidate(reg, mods, name).None? ==> r == Err(ConstantNotFound(name))
    ensures name !in visited && Candidate(reg, mods, name).Some? && Candidate(reg, mods, name).value.Literal?
            ==> r == Ok(Candidate(reg, mods, name).value.literal)
    decreases |ConstantNames(reg, mods) - visited|
  {
    if name in visited then Err(CircularConstantReference(name))
    else
      match Candidate(reg, mods, name)
      case None => Err(ConstantNotFound(name))
      case Some(Literal(x)) => Ok(x)
      case Some(ConstRef(next)) =>
        FreshNameShrinks(ConstantNames(reg, mods), visited, name);
        Resolve(reg, mods, next, visited + {name})
  }

  /** Visiting a defined, not yet visited name shrinks what is left to
      visit; this is why every resolution terminates. */
  lemma FreshNameShrinks(names: set<Name>, visited: set<Name>, name: Name)
    requires name in names && name !in visited
    ensures |names - (visited + {name})| < |names - visited|
  {
    assert names - visited == (names - (visited + {name})) + {name};
  }

  /** `valueForConstantWithName:`: the constant's literal value, or the reason
      there is none (nil in the source). */
  function ValueForConstantWithName(reg: Registry, mods: Modifications, name: Name): (r: Result<PlistValue, ConstantError>)
    ensures name in mods.constants && mods.constants[name].Literal? ==> r == Ok(mods.constants[name].literal)
    ensures name !in mods.constants && RawConstant(reg, name).Some? && RawConstant(reg, name).value.Literal?
            ==> r == Ok(RawConstant(reg, name).value.literal)
    ensures name !in mods.constants && RawConstant(reg, name).None? ==> r == Err(ConstantNotFound(name))
  {
    Resolve(reg, mods, name, {})
  }

  /** Resolves one raw value: a literal stands for itself; a reference
      resolves to `x` exactly when a reference chain from the named constant
      ends in `x`. */
  function ResolveValue(reg: Registry, mods: Modifications, v: Value): (r: Result<PlistValue, ConstantError>)
    ensures v.Literal? ==> r == Ok(v.literal)
    ensures v.ConstRef? ==> forall x :: r == Ok(x) <==> exists chain :: IsReferenceChain(reg, mods, v.constant, chain, x)
  {
    match v
    case Literal(x) => Ok(x)
    case ConstRef(c) =>
      EveryValueIffChain(reg, mods, c);
      ValueForConstantWithName(reg, mods, c)
  }

  /** A reference chain: distinct names, each referring to the next, the
      last one holding the literal `x`. */
  ghost predicate IsReferenceChain(reg: Registry, mods: Modifications, start: Name, chain: seq<Name>, x: PlistValue)
  {
    && |chain| > 0
    && chain[0] == start
    && (forall i, j :: 0 <= i < j < |chain| ==> chain[i] != chain[j])
    && (forall i :: 0 <= i < |chain| - 1 ==> Candidate(reg, mods, chain[i]) == Some(ConstRef(chain[i + 1])))
    && Candidate(reg, mods, chain[|chain| - 1]) == Some(Literal(x))
  }

  /** A reference chain that avoids the visited names is followed to its end. */
  lemma {:induction false} ChainResolves(reg: Registry, mods: Modifications, start: Name, chain: seq<Name>, x: PlistValue, visited: set<Name>)
    requires IsReferenceChain(reg, mods, start, chain, x)
    requires forall i :: 0 <= i < |chain| ==> chain[i] !in visited
    ensures Resolve(reg, mods, start, visited) == Ok(x)
    decreases |chain|
  {
    if |chain| > 1 {
      var rest := chain[1..];
      assert forall i :: 0 <= i < |rest| ==> rest[i] == chain[i + 1];
      assert IsReferenceChain(reg, mods, chain[1], rest, x);
      ChainResolves(reg, mods, chain[1], rest, x, visited + {start});
    }
  }

  /** A name that refers to the start of a chain, and is not on it,
      starts a longer chain; the longer chain avoids whatever both the name
      and the shorter chain avoid. */
  lemma ExtendChain(reg: Registry, mods: Modifications, name: Name, next: Name, rest: seq<Name>, x: PlistValue, visited: set<Name>)
    requires Candidate(reg, mods, name) == Some(ConstRef(next))
    requires IsReferenceChain(reg, mods, next, rest, x)
    requires name !in visited
    requires forall i :: 0 <= i < |rest| ==> rest[i] !in visited + {name}
    ensures IsReferenceChain(reg, mods, name, [name] + rest, x)
    ensures forall i :: 0 <= i < |[name] + rest| ==> ([name] + rest)[i] !in visited
  {
    var chain := [name] + rest;
    assert forall i :: 1 <= i < |chain| ==> chain[i] == rest[i - 1];
  }

  /** A successful resolution has followed a reference chain that avoids
      the visited names; the lemma returns that chain. */
  lemma {:induction false} ResolvedChain(reg: Registry, mods: Modifications, name: Name, visited: set<Name>, x: PlistValue)
    returns (chain: seq<Name>)
    requires Resolve(reg, mods, name, visited) == Ok(x)
    ensures IsReferenceChain(reg, mods, name, chain, x)
    ensures forall i :: 0 <= i < |chain| ==> chain[i] !in visited
    decreases |ConstantNames(reg, mods) - visited|
  {
    assert name !in visited;
    var candidate := Candidate(reg, mods, name);
    assert candidate.Some?;
    match candidate.value
    case Literal(_) =>
      chain := [name];
    case ConstRef(next) =>
      FreshNameShrinks(ConstantNames(reg, mods), visited, name);
      assert Resolve(reg, mods, next, visited + {name}) == Ok(x);
      var rest := ResolvedChain(reg, mods, next, visited + {name}, x);
      ExtendChain(reg, mods, name, next, rest, x, visited);
      chain := [name] + rest;
  }

  /** `valueForConstantWithName:` yields `x` exactly when a reference chain
      from the name ends in `x`. */
  lemma ValueIffChain(reg: Registry, mods: Modifications, name: Name, x: PlistValue)
    ensures ValueForConstantWithName(reg, mods, name) == Ok(x)
            <==> exists chain :: IsReferenceChain(reg, mods, name, chain, x)
  {
    if ValueForConstantWithName(reg, mods, name) == Ok(x) {
      var chain := ResolvedChain(reg, mods, name, {}, x);
    }
    if chain :| IsReferenceChain(reg, mods, name, chain, x) {
      ChainResolves(reg, mods, name, chain, x, {});
    }
  }

  /** `ValueIffChain` for every candidate value at once. */
  lemma EveryValueIffChain(reg: Registry, mods: Modifications, name: Name)
    ensures forall x :: ValueForConstantWithName(reg, mods, name) == Ok(x)
                        <==> exists chain :: IsReferenceChain(reg, mods, name, chain, x)
  {
    forall x
      ensures ValueForConstantWithName(reg, mods, name) == Ok(x)
              <==> exists chain :: IsReferenceChain(reg, mods, name, chain, x)
    {
      ValueIffChain(reg, mods, name, x);
    }
  }

  /** Two constants that refer to each other are reported as a cycle. */
  lemma MutualReferenceIsCircular(reg: Registry, mods: Modifications, a: Name, b: Name)
    requires a != b
    requires Candidate(reg, mods, a) == Some(ConstRef(b))
    requires Candidate(reg, mods, b) == Some(ConstRef(a))
    ensures ValueForConstantWithName(reg, mods, a) == Err(CircularConstantReference(a))
  {
    assert {a} + {b} == {a, b};
    assert Resolve(reg, mods, a, {a, b}) == Err(CircularConstantReference(a));
    assert Resolve(reg, mods, b, {a}) == Resolve(reg, mods, a, {a, b});
    assert Resolve(reg, mods, a, {}) == Resolve(reg, mods, b, {a});
  }

  /** After `modifyConstant:withValue:` the constant reads back the new
      value through both getters. */
  lemma ModifiedConstantReadsBack(reg: Registry, mods: Modifications, c: Name, x: PlistValue)
    ensures ValueForConstantWithName(reg, ModifyConstant(mods, c, Literal(x)), c) == Ok(x)
    ensures ModifiedValuesForConstant(ModifyConstant(mods, c, Literal(x)), c) == Some(Literal(x))
  {
  }

  /** Other constants are unchanged by `modifyConstant:withValue:`: one
      whose reference chain does not pass through the modified name keeps
      its value. */
  lemma ModifyConstantKeepsOthers(reg: Registry, mods: Modifications, c: Name, v: Value, d: Name, chain: seq<Name>, x: PlistValue)
    requires IsReferenceChain(reg, mods, d, chain, x)
    requires forall i :: 0 <= i < |chain| ==> chain[i] != c
    ensures ValueForConstantWithName(reg, mods, d) == Ok(x)
    ensures ValueForConstantWithName(reg, ModifyConstant(mods, c, v), d) == Ok(x)
  {
    var mods' := ModifyConstant(mods, c, v);
    forall i | 0 <= i < |chain|
      ensures Candidate(reg, mods', chain[i]) == Candidate(reg, mods, chain[i])
    {
    }
    assert IsReferenceChain(reg, mods', d, chain, x);
    ChainResolves(reg, mods, d, chain, x, {});
    ChainResolves(reg, mods', d, chain, x, {});
  }

  /** The constant names a resolution consults, in order: every name whose
      value is looked up before the resolution stops, whether it stops at a
      literal, at an undefined name or at a repeated one. */
  function ConsultedNames(reg: Registry, mods: Modifications, name: Name, visited: set<Name>): (t: seq<Name>)
    ensures name in visited <==> t == []
    ensures name !in visited ==> t[0] == name
    ensures forall i :: 0 <= i < |t| ==> t[i] !in visited
    decreases |ConstantNames(reg, mods) - visited|
  {
    if name in visited then []
    else
      match Candidate(reg, mods, name)
      case Some(ConstRef(next)) =>
        FreshNameShrinks(ConstantNames(reg, mods), visited, name);
        [name] + ConsultedNames(reg, mods, next, visited + {name})
      case _ => [name]
  }

  /** Modifying a constant the resolution never consults leaves that
      resolution's outcome unchanged, a failing one included. */
  lemma {:induction false} ResolveIgnoresUnconsulted(reg: Registry, mods: Modifications, c: Name, v: Value, name: Name, visited: set<Name>)
    requires c !in ConsultedNames(reg, mods, name, visited)
    ensures Resolve(reg, ModifyConstant(mods, c, v), name, visited) == Resolve(reg, mods, name, visited)
    decreases |ConstantNames(reg, mods) - visited|
  {
    if name !in visited {
      var mods' := ModifyConstant(mods, c, v);
      assert name != c;
      assert Candidate(reg, mods', name) == Candidate(reg, mods, name);
      match Candidate(reg, mods, name)
      case Some(ConstRef(next)) =>
        FreshNameShrinks(ConstantNames(reg, mods), visited, name);
        ResolveIgnoresUnconsulted(reg, mods, c, v, next, visited + {name});
      case _ =>
    }
  }

  /** `modifyConstant:withValue:` leaves every other constant as it was,
      whether it resolves or fails, unless resolving it consults the
      modified name. */
  lemma ModifyConstantKeepsUnconsulted(reg: Registry, mods: Modifications, c: Name, v: Value, d: Name)
    requires c !in ConsultedNames(reg, mods, d, {})
    ensures ValueForConstantWithName(reg, ModifyConstant(mods, c, v), d) == ValueForConstantWithName(reg, mods, d)
  {
    ResolveIgnoresUnconsulted(reg, mods, c, v, d, {});
  }

  /** A constant referring to a name no theme or modification defines fails
      the same way before and after an unrelated modification. */
  lemma DanglingReferenceUnaffected(reg: Registry, mods: Modifications, c: Name, v: Value, d: Name, missing: Name)
    requires c != d && c != missing && d != missing
    requires Candidate(reg, mods, d) == Some(ConstRef(missing)) && Candidate(reg, mods, missing).None?
    ensures ValueForConstantWithName(reg, mods, d) == Err(ConstantNotFound(missing))
    ensures ValueForConstantWithName(reg, ModifyConstant(mods, c, v), d) == Err(ConstantNotFound(missing))
  {
    assert ConsultedNames(reg, mods, missing, {d}) == [missing];
    assert ConsultedNames(reg, mods, d, {}) == [d, missing];
    ModifyConstantKeepsUnconsulted(reg, mods, c, v, d);
  }
}

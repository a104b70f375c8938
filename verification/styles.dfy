/** Style merging (`mergedValueForStyle:`): a style is flattened into one
    key-path dictionary by walking its superstyle chain, nearer definitions
    winning over farther ones; the style's own modification record then
    replaces that dictionary (the default) or is overlaid on it (inheritance
    enabled); finally constant references are resolved. */
module Styles {
  import opened Results
  import opened ThemeSource
  import opened Overrides
  import opened Constants

  datatype StyleError =
    | StyleNotFound(name: Name)
    | CircularStyleReference(name: Name)
    | UnresolvedConstants(failures: map<KeyPath, ConstantError>)

  /** Every style name some theme defines. */
  function StyleNames(reg: Registry): set<Name>
  {
    KeysOf(StyleLayers(reg))
  }

  /** The themes' own entries of a style; empty when no theme defines it. */
  function OwnEntries(reg: Registry, name: Name): map<KeyPath, Value>
  {
    match RawStyle(reg, name)
    case Some(def) => def.entries
    case None => map[]
  }

  /** A superstyle chain: distinct defined styles, each one's superstyle
      being the next, the last one having none. */
  ghost predicate IsSuperstyleChain(reg: Registry, start: Name, chain: seq<Name>)
  {
    && |chain| > 0
    && chain[0] == start
    && (forall i, j :: 0 <= i < j < |chain| ==> chain[i] != chain[j])
    && (forall i :: 0 <= i < |chain| ==> RawStyle(reg, chain[i]).Some?)
    && (forall i :: 0 <= i < |chain| - 1 ==> RawStyle(reg, chain[i]).value.superstyle == Some(chain[i + 1]))
    && RawStyle(reg, chain[|chain| - 1]).value.superstyle.None?
  }

  /** Walks the superstyle links from `name`; `visited` holds the styles
      already met in this walk. */
  function SuperstyleChain(reg: Registry, name: Name, visited: set<Name>): (r: Result<seq<Name>, StyleError>)
    ensures name in visited ==> r == Err(CircularStyleReference(name))
    ensures name !in visited && RawStyle(reg, name).None? ==> r == Err(StyleNotFound(name))
    ensures r.Ok? ==> IsSuperstyleChain(reg, name, r.value)
    ensures r.Ok? ==> forall i :: 0 <= i < |r.value| ==> r.value[i] !in visited
    ensures r.Err? ==> r.error.StyleNotFound? || r.error.CircularStyleReference?
    decreases |StyleNames(reg) - visited|
  {
    if name in visited then Err(CircularStyleReference(name))
    else
      match RawStyle(reg, name)
      case None => Err(StyleNotFound(name))
      case Some(def) =>
        match def.superstyle
        case None => Ok([name])
        case Some(parent) =>
          FreshNameShrinks(StyleNames(reg), visited, name);
          match SuperstyleChain(reg, parent, visited + {name})
          case Err(e) => Err(e)
          case Ok(rest) =>
            ExtendStyleChain(reg, name, rest);
            Ok([name] + rest)
  }

  /** A defined style whose superstyle starts a chain, and which is not on
      it, starts a longer chain. */
  lemma ExtendStyleChain(reg: Registry, name: Name, rest: seq<Name>)
    requires |rest| > 0
    requires RawStyle(reg, name).Some? && RawStyle(reg, name).value.superstyle == Some(rest[0])
    requires IsSuperstyleChain(reg, rest[0], rest)
    requires forall i :: 0 <= i < |rest| ==> rest[i] != name
    ensures IsSuperstyleChain(reg, name, [name] + rest)
  {
    var chain := [name] + rest;
    assert forall i :: 1 <= i < |chain| ==> chain[i] == rest[i - 1];
  }

  /** The themes' own entries of each style of a chain, nearest first. */
  function ChainEntries(reg: Registry, chain: seq<Name>): (ls: seq<map<KeyPath, Value>>)
    ensures |ls| == |chain|
    ensures forall i :: 0 <= i < |chain| ==> ls[i] == OwnEntries(reg, chain[i])
  {
    seq(|chain|, i requires 0 <= i < |chain| => OwnEntries(reg, chain[i]))
  }

  /** Merges dictionaries root-to-leaf, the first one being the leaf: every
      key path any of them sets is present, with the value of the nearest
      one that sets it (the first hit of the layered lookup). */
  function MergeNearestFirst(layers: seq<map<KeyPath, Value>>): (r: map<KeyPath, Value>)
    ensures forall k :: k in r <==> FirstHit(layers, k).Some?
    ensures forall k :: k in r ==> r[k] == FirstHit(layers, k).value
  {
    if |layers| == 0 then map[]
    else
      var rest := MergeNearestFirst(layers[1..]);
      var r := rest + layers[0];
      assert forall k :: k !in layers[0] ==> FirstHit(layers, k) == FirstHit(layers[1..], k);
      r
  }

  /** The merge of a superstyle chain. */
  function MergeChain(reg: Registry, chain: seq<Name>): map<KeyPath, Value>
  {
    MergeNearestFirst(ChainEntries(reg, chain))
  }

  /** The base merged dictionary of a style, from the themes alone. */
  function BaseMerge(reg: Registry, name: Name): (r: Result<map<KeyPath, Value>, StyleError>)
    ensures RawStyle(reg, name).None? ==> r == Err(StyleNotFound(name))
    ensures RawStyle(reg, name).Some? && RawStyle(reg, name).value.superstyle.None?
            ==> r == Ok(RawStyle(reg, name).value.entries)
    ensures r.Ok? ==> forall k :: k in OwnEntries(reg, name) ==> k in r.value && r.value[k] == OwnEntries(reg, name)[k]
    ensures r.Err? ==> r.error.StyleNotFound? || r.error.CircularStyleReference?
  {
    match SuperstyleChain(reg, name, {})
    case Err(e) => Err(e)
    case Ok(chain) =>
      var r := MergeChain(reg, chain);
      assert ChainEntries(reg, chain)[0] == OwnEntries(reg, name);
      assert |chain| == 1 ==> r == OwnEntries(reg, name);
      Ok(r)
  }

  /** A superstyle chain that avoids the visited names is exactly what the
      walk produces. */
  lemma {:induction false} ChainIsWalked(reg: Registry, start: Name, chain: seq<Name>, visited: set<Name>)
    requires IsSuperstyleChain(reg, start, chain)
    requires forall i :: 0 <= i < |chain| ==> chain[i] !in visited
    ensures SuperstyleChain(reg, start, visited) == Ok(chain)
    decreases |chain|
  {
    assert RawStyle(reg, start).Some?;
    if |chain| == 1 {
      assert chain == [start];
    } else {
      var rest := chain[1..];
      assert forall i :: 0 <= i < |rest| ==> rest[i] == chain[i + 1];
      assert IsSuperstyleChain(reg, chain[1], rest);
      ChainIsWalked(reg, chain[1], rest, visited + {start});
      assert RawStyle(reg, start).value.superstyle == Some(chain[1]);
      assert chain == [start] + rest;
    }
  }

  /** A style merges successfully exactly when it has a superstyle chain,
      and then its dictionary is that chain merged nearest-first. */
  lemma MergeIffChain(reg: Registry, name: Name)
    ensures BaseMerge(reg, name).Ok? <==> exists chain :: IsSuperstyleChain(reg, name, chain)
    ensures forall chain :: IsSuperstyleChain(reg, name, chain) ==> BaseMerge(reg, name) == Ok(MergeChain(reg, chain))
  {
    forall chain | IsSuperstyleChain(reg, name, chain)
      ensures BaseMerge(reg, name) == Ok(MergeChain(reg, chain))
    {
      ChainIsWalked(reg, name, chain, {});
    }
    if BaseMerge(reg, name).Ok? {
      var chain := SuperstyleChain(reg, name, {}).value;
      assert IsSuperstyleChain(reg, name, chain);
    }
  }

  /** Ancestor key paths the style does not set are preserved: a style
      with a superstyle merges to its parent's dictionary overlaid with its
      own entries. */
  lemma AncestorEntriesPreserved(reg: Registry, name: Name, parent: Name)
    requires RawStyle(reg, name).Some? && RawStyle(reg, name).value.superstyle == Some(parent)
    requires BaseMerge(reg, name).Ok?
    ensures BaseMerge(reg, parent).Ok?
    ensures forall k :: k in BaseMerge(reg, parent).value && k !in OwnEntries(reg, name)
                        ==> k in BaseMerge(reg, name).value && BaseMerge(reg, name).value[k] == BaseMerge(reg, parent).value[k]
    ensures forall k :: k in BaseMerge(reg, name).value ==> k in OwnEntries(reg, name) || k in BaseMerge(reg, parent).value
  {
    var chain := SuperstyleChain(reg, name, {}).value;
    var rest := ParentChain(reg, name, parent, chain);
    ChainIsWalked(reg, parent, rest, {});
    var ls := ChainEntries(reg, chain);
    assert ls[1..] == ChainEntries(reg, rest);
    assert ls[0] == OwnEntries(reg, name);
    assert BaseMerge(reg, name).value == MergeNearestFirst(ls);
    assert BaseMerge(reg, parent).value == MergeNearestFirst(ls[1..]);
    OverlayOfFirstLayer(ls);
  }

  /** Dropping the first style of a chain leaves the chain of its parent. */
  lemma ParentChain(reg: Registry, name: Name, parent: Name, chain: seq<Name>) returns (rest: seq<Name>)
    requires IsSuperstyleChain(reg, name, chain)
    requires RawStyle(reg, name).value.superstyle == Some(parent)
    ensures rest == chain[1..] && IsSuperstyleChain(reg, parent, rest)
  {
    rest := chain[1..];
    assert forall i :: 0 <= i < |rest| ==> rest[i] == chain[i + 1];
  }

  /** The merge of several layers is the merge of all but the first,
      overlaid with the first. */
  lemma OverlayOfFirstLayer(ls: seq<map<KeyPath, Value>>)
    requires |ls| > 0
    ensures forall k :: k in MergeNearestFirst(ls[1..]) && k !in ls[0]
                        ==> k in MergeNearestFirst(ls) && MergeNearestFirst(ls)[k] == MergeNearestFirst(ls[1..])[k]
    ensures forall k :: k in MergeNearestFirst(ls) ==> k in ls[0] || k in MergeNearestFirst(ls[1..])
  {
  }

  /** Two styles that are each other's superstyle are reported as a cycle. */
  lemma MutualSuperstyleIsCircular(reg: Registry, a: Name, b: Name)
    requires a != b
    requires RawStyle(reg, a).Some? && RawStyle(reg, a).value.superstyle == Some(b)
    requires RawStyle(reg, b).Some? && RawStyle(reg, b).value.superstyle == Some(a)
    ensures BaseMerge(reg, a) == Err(CircularStyleReference(a))
  {
    assert {a} + {b} == {a, b};
    assert SuperstyleChain(reg, a, {a, b}) == Err(CircularStyleReference(a));
    assert SuperstyleChain(reg, b, {a}) == Err(CircularStyleReference(a));
    assert SuperstyleChain(reg, a, {}) == Err(CircularStyleReference(a));
  }

  /** The dictionary of a style with its modification record applied, its
      values not yet resolved: replace mode yields the record alone, overlay
      mode lays the record over the base merged dictionary. */
  function StyleDictionary(reg: Registry, mods: Modifications, name: Name): (r: Result<map<KeyPath, Value>, StyleError>)
    ensures name !in mods.styles ==> r == BaseMerge(reg, name)
    ensures name in mods.styles && !IsInheritanceEnabledForStyle(mods, name) ==> r == Ok(mods.styles[name])
    ensures name in mods.styles && IsInheritanceEnabledForStyle(mods, name) && BaseMerge(reg, name).Ok?
            ==> r.Ok?
                && (forall k :: k in r.value <==> k in BaseMerge(reg, name).value || k in mods.styles[name])
                && (forall k :: k in mods.styles[name] ==> r.value[k] == mods.styles[name][k])
                && (forall k :: k in BaseMerge(reg, name).value && k !in mods.styles[name]
                                ==> r.value[k] == BaseMerge(reg, name).value[k])
    ensures name in mods.styles && RawStyle(reg, name).None? ==> r == Ok(mods.styles[name])
    ensures name in mods.styles && IsInheritanceEnabledForStyle(mods, name) && RawStyle(reg, name).Some? && BaseMerge(reg, name).Err?
            ==> r == BaseMerge(reg, name)
    ensures r.Err? ==> r.error.StyleNotFound? || r.error.CircularStyleReference?
  {
    if name !in mods.styles then BaseMerge(reg, name)
    else
      var modified := mods.styles[name];
      if !IsInheritanceEnabledForStyle(mods, name) || RawStyle(reg, name).None? then Ok(modified)
      else
        match BaseMerge(reg, name)
        case Err(e) => Err(e)
        case Ok(base) => Ok(base + modified)
  }

  /** Resolves the constant references of a dictionary; every key path that
      fails is reported with its reason. */
  function ResolveEntries(reg: Registry, mods: Modifications, d: map<KeyPath, Value>): (r: Result<map<KeyPath, PlistValue>, StyleError>)
    ensures r.Ok? <==> forall k :: k in d ==> ResolveValue(reg, mods, d[k]).Ok?
    ensures r.Ok? ==> r.value.Keys == d.Keys && forall k :: k in d ==> ResolveValue(reg, mods, d[k]) == Ok(r.value[k])
    ensures r.Err? ==> r.error.UnresolvedConstants?
                       && (forall k :: k in r.error.failures <==> k in d && ResolveValue(reg, mods, d[k]).Err?)
                       && (forall k :: k in r.error.failures ==> r.error.failures[k] == ResolveValue(reg, mods, d[k]).error)
  {
    if forall k :: k in d ==> ResolveValue(reg, mods, d[k]).Ok? then
      Ok(map k | k in d :: ResolveValue(reg, mods, d[k]).value)
    else
      Err(UnresolvedConstants(map k | k in d && ResolveValue(reg, mods, d[k]).Err? :: ResolveValue(reg, mods, d[k]).error))
  }

  /** `mergedValueForStyle:`: the fully merged and resolved dictionary. */
  function MergedValueForStyle(reg: Registry, mods: Modifications, name: Name): (r: Result<map<KeyPath, PlistValue>, StyleError>)
    ensures StyleDictionary(reg, mods, name).Err? ==> r == Err(StyleDictionary(reg, mods, name).error)
    ensures StyleDictionary(reg, mods, name).Ok? ==>
              var d := StyleDictionary(reg, mods, name).value;
              && (r.Ok? <==> forall k :: k in d ==> ResolveValue(reg, mods, d[k]).Ok?)
              && (r.Ok? ==> r.value.Keys == d.Keys)
              && (r.Ok? ==> forall k :: k in d && d[k].Literal? ==> r.value[k] == d[k].literal)
              && (r.Ok? ==> forall k :: k in d && d[k].ConstRef?
                                  ==> ValueForConstantWithName(reg, mods, d[k].constant) == Ok(r.value[k]))
              && (r.Err? ==> r.error.UnresolvedConstants?
                             && (forall k :: k in r.error.failures <==> k in d && ResolveValue(reg, mods, d[k]).Err?)
                             && (forall k :: k in r.error.failures ==> r.error.failures[k] == ResolveValue(reg, mods, d[k]).error))
  {
    match StyleDictionary(reg, mods, name)
    case Err(e) => Err(e)
    case Ok(d) => ResolveEntries(reg, mods, d)
  }

  /** A dictionary holding only literals resolves to exactly those
      literals, whatever the constants. */
  lemma LiteralEntriesResolve(reg: Registry, mods: Modifications, d: map<KeyPath, Value>, x: map<KeyPath, PlistValue>)
    requires d.Keys == x.Keys && forall k :: k in d ==> d[k] == Literal(x[k])
    ensures ResolveEntries(reg, mods, d) == Ok(x)
  {
    assert forall k :: k in d ==> ResolveValue(reg, mods, d[k]) == Ok(x[k]);
    var r := ResolveEntries(reg, mods, d);
    assert r.Ok? && r.value.Keys == x.Keys;
    assert forall k :: k in x ==> r.value[k] == x[k];
    assert r.value == x;
  }

  /** A style whose dictionary holds only literals merges to exactly those
      literals. */
  lemma LiteralStyleResolves(reg: Registry, mods: Modifications, name: Name, d: map<KeyPath, Value>, x: map<KeyPath, PlistValue>)
    requires StyleDictionary(reg, mods, name) == Ok(d)
    requires d.Keys == x.Keys && forall k :: k in d ==> d[k] == Literal(x[k])
    ensures MergedValueForStyle(reg, mods, name) == Ok(x)
  {
    LiteralEntriesResolve(reg, mods, d, x);
  }

  /** A style with no superstyle and no modification yields its own entries,
      with constant references resolved. */
  lemma PlainStyleYieldsOwnEntries(reg: Registry, mods: Modifications, name: Name)
    requires RawStyle(reg, name).Some? && RawStyle(reg, name).value.superstyle.None?
    requires name !in mods.styles
    ensures StyleDictionary(reg, mods, name) == Ok(RawStyle(reg, name).value.entries)
    ensures MergedValueForStyle(reg, mods, name) == ResolveEntries(reg, mods, RawStyle(reg, name).value.entries)
  {
  }

  /** Replace mode: after `modifyStlye:forKeyPath:withValue:` on a style
      whose inheritance is not enabled, the style is exactly its modified
      key paths (the themes' entries are dropped), and the last value
      written is read back. */
  lemma ReplaceModeYieldsModifiedPaths(reg: Registry, mods: Modifications, s: Name, p: KeyPath, v: Value)
    requires !IsInheritanceEnabledForStyle(mods, s)
    ensures var mods' := ModifyStyle(mods, s, p, v);
            && StyleDictionary(reg, mods', s).Ok?
            && (forall k :: k in StyleDictionary(reg, mods', s).value <==> ModifiedValueForStyleAt(mods', s, k).Some?)
            && (forall k :: k in StyleDictionary(reg, mods', s).value
                            ==> ModifiedValueForStyleAt(mods', s, k) == Some(StyleDictionary(reg, mods', s).value[k]))
            && StyleDictionary(reg, mods', s).value[p] == v
            && ModifiedValueForStyleAt(mods', s, p) == Some(v)
  {
  }

  /** Overlay mode: once inheritance is enabled for a modified style, its
      dictionary is the base merged dictionary with only the modified key
      paths replaced. */
  lemma OverlayModeReplacesOnlyModifiedPaths(reg: Registry, mods: Modifications, s: Name, base: map<KeyPath, Value>)
    requires s in mods.styles
    requires BaseMerge(reg, s) == Ok(base)
    ensures var mods' := ModifyStyleInheritance(mods, s, true);
            && IsInheritanceEnabledForStyle(mods', s)
            && StyleDictionary(reg, mods', s).Ok?
            && (forall k :: k in StyleDictionary(reg, mods', s).value <==> k in base || ModifiedValueForStyleAt(mods', s, k).Some?)
            && (forall k :: ModifiedValueForStyleAt(mods', s, k).Some?
                            ==> Some(StyleDictionary(reg, mods', s).value[k]) == ModifiedValueForStyleAt(mods', s, k))
            && (forall k :: k in base && ModifiedValueForStyleAt(mods', s, k).None?
                            ==> StyleDictionary(reg, mods', s).value[k] == base[k])
  {
  }

  /** A style modification affects only the modified style's own
      dictionary: every other style, including the styles that inherit from
      it, merges as before. */
  lemma ModifyStyleAffectsOnlyItsStyle(reg: Registry, mods: Modifications, s: Name, p: KeyPath, v: Value, enable: bool, t: Name)
    requires t != s
    ensures StyleDictionary(reg, ModifyStyle(mods, s, p, v), t) == StyleDictionary(reg, mods, t)
    ensures StyleDictionary(reg, ModifyStyleInheritance(mods, s, enable), t) == StyleDictionary(reg, mods, t)
  {
  }

  /** After `resetModifies`, constants and styles resolve as if nothing had
      ever been modified. */
  lemma ResetRestoresThemes(reg: Registry, st: Store, c: Name, s: Name)
    ensures ValueForConstantWithName(reg, ResetModifies(st).live, c) == ValueForConstantWithName(reg, NoModifications, c)
    ensures StyleDictionary(reg, ResetModifies(st).live, s) == BaseMerge(reg, s)
    ensures MergedValueForStyle(reg, ResetModifies(st).live, s) == MergedValueForStyle(reg, NoModifications, s)
  {
  }
}

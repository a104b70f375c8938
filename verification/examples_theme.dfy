/** Worked examples on a two-style theme: `Child` inherits from `Parent`,
    `Loop1` and `Loop2` name each other as superstyle. */
module ThemeExamples {
  import opened Results
  import opened ThemeSource
  import opened Overrides
  import opened Styles

  const ParentStyle := Style(map["a" := Literal(Num(1)), "b" := Literal(Num(2))], None)
  const ChildStyle := Style(map["b" := Literal(Num(3)), "c" := Literal(Num(4))], Some("Parent"))
  const LoopStyle1 := Style(map[], Some("Loop2"))
  const LoopStyle2 := Style(map[], Some("Loop1"))

  const Sample := Registry(
    Theme(map[], map[], map["Parent" := ParentStyle, "Child" := ChildStyle, "Loop1" := LoopStyle1, "Loop2" := LoopStyle2]), [])

  /** The child's own `b` wins over the parent's, the parent's `a` is kept. */
  lemma InheritanceExample()
    ensures BaseMerge(Sample, "Child") == Ok(map["a" := Literal(Num(1)), "b" := Literal(Num(3)), "c" := Literal(Num(4))])
    ensures MergedValueForStyle(Sample, NoModifications, "Child") == Ok(map["a" := Num(1), "b" := Num(3), "c" := Num(4)])
  {
    ChildBaseMerge();
    assert StyleDictionary(Sample, NoModifications, "Child") == BaseMerge(Sample, "Child");
    ChildResolves(Sample, NoModifications);
  }

  /** A `Child` dictionary of `{a:1, b:3, c:4}` as literals resolves to those values. */
  lemma ChildResolves(reg: Registry, mods: Modifications)
    requires StyleDictionary(reg, mods, "Child") == Ok(map["a" := Literal(Num(1)), "b" := Literal(Num(3)), "c" := Literal(Num(4))])
    ensures MergedValueForStyle(reg, mods, "Child") == Ok(map["a" := Num(1), "b" := Num(3), "c" := Num(4)])
  {
    var base := map["a" := Literal(Num(1)), "b" := Literal(Num(3)), "c" := Literal(Num(4))];
    MergedChildIsLiteral();
    LiteralStyleResolves(reg, mods, "Child", base, map["a" := Num(1), "b" := Num(3), "c" := Num(4)]);
  }

  /** The base merge of `Child` along `Child -> Parent` is `{a:1, b:3, c:4}`. */
  lemma ChildBaseMerge()
    ensures BaseMerge(Sample, "Child") == Ok(map["a" := Literal(Num(1)), "b" := Literal(Num(3)), "c" := Literal(Num(4))])
  {
    assert RawStyle(Sample, "Child") == Some(ChildStyle);
    assert RawStyle(Sample, "Parent") == Some(ParentStyle);
    assert IsSuperstyleChain(Sample, "Child", ["Child", "Parent"]);
    MergeIffChain(Sample, "Child");
    var ls := ChainEntries(Sample, ["Child", "Parent"]);
    assert ls == [ChildStyle.entries, ParentStyle.entries];
    MergeTwo(ChildStyle.entries, ParentStyle.entries);
    assert BaseMerge(Sample, "Child") == Ok(MergeChain(Sample, ["Child", "Parent"]));
    ChildOverParent();
  }

  /** Merging a leaf and its root overlays the leaf on the root. */
  lemma MergeTwo(leaf: map<KeyPath, Value>, root: map<KeyPath, Value>)
    ensures MergeNearestFirst([leaf, root]) == root + leaf
  {
    assert [leaf, root][1..] == [root];
    assert [root][1..] == [];
  }

  /** Laying `Child`'s own entries over `Parent`'s gives `{a:1, b:3, c:4}`. */
  lemma ChildOverParent()
    ensures ParentStyle.entries + ChildStyle.entries
            == map["a" := Literal(Num(1)), "b" := Literal(Num(3)), "c" := Literal(Num(4))]
  {
    var merged := ParentStyle.entries + ChildStyle.entries;
    assert "a" != "b" && "b" != "c" && "a" != "c";
    assert merged.Keys == {"a", "b", "c"};
  }

  /** Laying `{a:99}` over `{a:1, b:3, c:4}` replaces only `a`. */
  lemma NinetyNineOverChild()
    ensures map["a" := Literal(Num(1)), "b" := Literal(Num(3)), "c" := Literal(Num(4))] + map["a" := Literal(Num(99))]
            == map["a" := Literal(Num(99)), "b" := Literal(Num(3)), "c" := Literal(Num(4))]
  {
    var merged := map["a" := Literal(Num(1)), "b" := Literal(Num(3)), "c" := Literal(Num(4))] + map["a" := Literal(Num(99))];
    assert "a" != "b" && "b" != "c" && "a" != "c";
    assert merged.Keys == {"a", "b", "c"};
  }

  /** Replace mode: one modified key path is the whole style. */
  lemma ReplaceExample()
    ensures StyleDictionary(Sample, ModifyStyle(NoModifications, "Child", "a", Literal(Num(99))), "Child")
            == Ok(map["a" := Literal(Num(99))])
    ensures MergedValueForStyle(Sample, ModifyStyle(NoModifications, "Child", "a", Literal(Num(99))), "Child")
            == Ok(map["a" := Num(99)])
  {
    LiteralStyleResolves(Sample, ModifyStyle(NoModifications, "Child", "a", Literal(Num(99))), "Child",
                         map["a" := Literal(Num(99))], map["a" := Num(99)]);
  }

  /** Overlay mode: the same modification replaces only `a`. */
  lemma OverlayExample()
    ensures StyleDictionary(Sample, ModifyStyleInheritance(ModifyStyle(NoModifications, "Child", "a", Literal(Num(99))), "Child", true), "Child")
            == Ok(map["a" := Literal(Num(99)), "b" := Literal(Num(3)), "c" := Literal(Num(4))])
    ensures MergedValueForStyle(Sample, ModifyStyleInheritance(ModifyStyle(NoModifications, "Child", "a", Literal(Num(99))), "Child", true), "Child")
            == Ok(map["a" := Num(99), "b" := Num(3), "c" := Num(4)])
  {
    var mods := ModifyStyleInheritance(ModifyStyle(NoModifications, "Child", "a", Literal(Num(99))), "Child", true);
    OverlayDictionary(mods);
    OverlayResolves(Sample, mods);
  }

  /** With `Child.a` modified to 99 and inheritance enabled, `Child`'s
      unresolved dictionary is `{a:99, b:3, c:4}`. */
  lemma OverlayDictionary(mods: Modifications)
    requires mods == ModifyStyleInheritance(ModifyStyle(NoModifications, "Child", "a", Literal(Num(99))), "Child", true)
    ensures StyleDictionary(Sample, mods, "Child")
            == Ok(map["a" := Literal(Num(99)), "b" := Literal(Num(3)), "c" := Literal(Num(4))])
  {
    ChildBaseMerge();
    assert mods.styles["Child"] == map["a" := Literal(Num(99))];
    assert IsInheritanceEnabledForStyle(mods, "Child");
    assert RawStyle(Sample, "Child") == Some(ChildStyle);
    var base := map["a" := Literal(Num(1)), "b" := Literal(Num(3)), "c" := Literal(Num(4))];
    assert StyleDictionary(Sample, mods, "Child") == Ok(base + map["a" := Literal(Num(99))]);
    NinetyNineOverChild();
  }

  /** A `Child` dictionary of `{a:99, b:3, c:4}` as literals resolves to those values. */
  lemma OverlayResolves(reg: Registry, mods: Modifications)
    requires StyleDictionary(reg, mods, "Child")
             == Ok(map["a" := Literal(Num(99)), "b" := Literal(Num(3)), "c" := Literal(Num(4))])
    ensures MergedValueForStyle(reg, mods, "Child") == Ok(map["a" := Num(99), "b" := Num(3), "c" := Num(4)])
  {
    OverlaidChildIsLiteral();
    LiteralStyleResolves(reg, mods, "Child", map["a" := Literal(Num(99)), "b" := Literal(Num(3)), "c" := Literal(Num(4))],
                         map["a" := Num(99), "b" := Num(3), "c" := Num(4)]);
  }

  /** The overlaid dictionary `{a:99, b:3, c:4}` holds only literals. */
  lemma OverlaidChildIsLiteral()
    ensures var d := map["a" := Literal(Num(99)), "b" := Literal(Num(3)), "c" := Literal(Num(4))];
            var x := map["a" := Num(99), "b" := Num(3), "c" := Num(4)];
            d.Keys == x.Keys && forall k :: k in d ==> d[k] == Literal(x[k])
  {
  }

  /** The merged dictionary `{a:1, b:3, c:4}` holds only literals. */
  lemma MergedChildIsLiteral()
    ensures var d := map["a" := Literal(Num(1)), "b" := Literal(Num(3)), "c" := Literal(Num(4))];
            var x := map["a" := Num(1), "b" := Num(3), "c" := Num(4)];
            d.Keys == x.Keys && forall k :: k in d ==> d[k] == Literal(x[k])
  {
  }

  /** Mutually inheriting styles are a cycle. */
  lemma CycleExample()
    ensures BaseMerge(Sample, "Loop1") == Err(CircularStyleReference("Loop1"))
    ensures MergedValueForStyle(Sample, NoModifications, "Loop1") == Err(CircularStyleReference("Loop1"))
  {
    assert RawStyle(Sample, "Loop1") == Some(LoopStyle1);
    assert RawStyle(Sample, "Loop2") == Some(LoopStyle2);
    MutualSuperstyleIsCircular(Sample, "Loop1", "Loop2");
  }
}

/** The theme documents the manager reads: one mandatory default theme and an
    ordered list of alternative themes. Every lookup searches the alternative
    themes in the order they were registered and then the default theme; the
    first theme that defines the key answers, and nothing is merged across
    themes. */
module ThemeSource {
  import opened Results

  type Name = string
  type KeyPath = string

  /** A literal payload as a theme document stores it: a string, a number,
      or a small dictionary (a font descriptor, say). */
  datatype PlistValue = Str(s: string) | Num(n: int) | Dict(fields: map<string, string>)

  /** A raw theme value: a literal, or a reference to a named constant that
      is resolved when the value is used. */
  datatype Value = Literal(literal: PlistValue) | ConstRef(constant: Name)

  /** A style definition: key-path entries plus an optional parent style
      whose entries it inherits. */
  datatype Style = Style(entries: map<KeyPath, Value>, superstyle: Option<Name>)

  /** One loaded theme document: the flat keys used by `valueForKey:` (plain
      literals, which that lookup returns as stored), the Constants section
      and the Styles section. */
  datatype Theme = Theme(values: map<string, PlistValue>, constants: map<Name, Value>, styles: map<Name, Style>)

  /** The loaded sources: the default theme is always present. */
  datatype Registry = Registry(default: Theme, alternatives: seq<Theme>)

  datatype SourceError = SourceNotFound(name: Name)

  /** Every key some layer defines. */
  function KeysOf<K, V>(layers: seq<map<K, V>>): (ks: set<K>)
    ensures forall i, k :: 0 <= i < |layers| && k in layers[i] ==> k in ks
  {
    if |layers| == 0 then {} else layers[0].Keys + KeysOf(layers[1..])
  }

  /** First-hit lookup through an ordered list of layers: the earliest layer
      that defines `k` answers. */
  function FirstHit<K, V>(layers: seq<map<K, V>>, k: K): (r: Option<V>)
    ensures r.None? <==> forall i :: 0 <= i < |layers| ==> k !in layers[i]
    ensures forall i :: 0 <= i < |layers| && k in layers[i] && (forall j :: 0 <= j < i ==> k !in layers[j])
                        ==> r == Some(layers[i][k])
    ensures r.Some? ==> k in KeysOf(layers)
  {
    if |layers| == 0 then None
    else if k in layers[0] then Some(layers[0][k])
    else
      var rest := FirstHit(layers[1..], k);
      assert forall i :: 1 <= i < |layers| ==> layers[i] == layers[1..][i - 1];
      rest
  }

  /** The flat-key section of every theme, alternatives first. */
  function ValueLayers(reg: Registry): (ls: seq<map<string, PlistValue>>)
    ensures |ls| == |reg.alternatives| + 1
    ensures forall i :: 0 <= i < |reg.alternatives| ==> ls[i] == reg.alternatives[i].values
    ensures ls[|reg.alternatives|] == reg.default.values
  {
    seq(|reg.alternatives|, i requires 0 <= i < |reg.alternatives| => reg.alternatives[i].values) + [reg.default.values]
  }

  /** The Constants section of every theme, alternatives first. */
  function ConstantLayers(reg: Registry): (ls: seq<map<Name, Value>>)
    ensures |ls| == |reg.alternatives| + 1
    ensures forall i :: 0 <= i < |reg.alternatives| ==> ls[i] == reg.alternatives[i].constants
    ensures ls[|reg.alternatives|] == reg.default.constants
  {
    seq(|reg.alternatives|, i requires 0 <= i < |reg.alternatives| => reg.alternatives[i].constants) + [reg.default.constants]
  }

  /** The Styles section of every theme, alternatives first. */
  function StyleLayers(reg: Registry): (ls: seq<map<Name, Style>>)
    ensures |ls| == |reg.alternatives| + 1
    ensures forall i :: 0 <= i < |reg.alternatives| ==> ls[i] == reg.alternatives[i].styles
    ensures ls[|reg.alternatives|] == reg.default.styles
  {
    seq(|reg.alternatives|, i requires 0 <= i < |reg.alternatives| => reg.alternatives[i].styles) + [reg.default.styles]
  }

  /** `valueForKey:`: the value of the earliest alternative theme defining
      `key`, else the default theme's value, else nil. */
  function ValueForKey(reg: Registry, key: string): (r: Option<PlistValue>)
    ensures forall i :: 0 <= i < |reg.alternatives| && key in reg.alternatives[i].values
                        && (forall j :: 0 <= j < i ==> key !in reg.alternatives[j].values)
                        ==> r == Some(reg.alternatives[i].values[key])
    ensures (forall i :: 0 <= i < |reg.alternatives| ==> key !in reg.alternatives[i].values)
            ==> r == Lookup(reg.default.values, key)
  {
    var ls := ValueLayers(reg);
    var r := FirstHit(ls, key);
    assert (forall i :: 0 <= i < |reg.alternatives| ==> key !in reg.alternatives[i].values)
           ==> (forall j :: 0 <= j < |reg.alternatives| ==> key !in ls[j]);
    r
  }

  /** The raw (unresolved) value of a constant, first hit wins. */
  function RawConstant(reg: Registry, name: Name): (r: Option<Value>)
    ensures r.Some? ==> name in KeysOf(ConstantLayers(reg))
  {
    FirstHit(ConstantLayers(reg), name)
  }

  /** The raw definition of a style: the whole definition of the first theme
      that defines it (definitions are not merged across themes). */
  function RawStyle(reg: Registry, name: Name): (r: Option<Style>)
    ensures r.Some? ==> name in KeysOf(StyleLayers(reg))
  {
    FirstHit(StyleLayers(reg), name)
  }

  /** Constants are looked up like keys: the earliest alternative theme
      defining the constant answers, else the default theme. */
  lemma RawConstantIsLayered(reg: Registry, name: Name)
    ensures forall i :: 0 <= i < |reg.alternatives| && name in reg.alternatives[i].constants
                        && (forall j :: 0 <= j < i ==> name !in reg.alternatives[j].constants)
                        ==> RawConstant(reg, name) == Some(reg.alternatives[i].constants[name])
    ensures (forall i :: 0 <= i < |reg.alternatives| ==> name !in reg.alternatives[i].constants)
            ==> RawConstant(reg, name) == Lookup(reg.default.constants, name)
  {
    var ls := ConstantLayers(reg);
    assert (forall i :: 0 <= i < |reg.alternatives| ==> name !in reg.alternatives[i].constants)
           ==> (forall j :: 0 <= j < |reg.alternatives| ==> name !in ls[j]);
  }

  /** A style's definition is looked up like a key, and taken whole: the
      earliest alternative theme defining the style answers, else the
      default theme. */
  lemma RawStyleIsLayered(reg: Registry, name: Name)
    ensures forall i :: 0 <= i < |reg.alternatives| && name in reg.alternatives[i].styles
                        && (forall j :: 0 <= j < i ==> name !in reg.alternatives[j].styles)
                        ==> RawStyle(reg, name) == Some(reg.alternatives[i].styles[name])
    ensures (forall i :: 0 <= i < |reg.alternatives| ==> name !in reg.alternatives[i].styles)
            ==> RawStyle(reg, name) == Lookup(reg.default.styles, name)
  {
    var ls := StyleLayers(reg);
    assert (forall i :: 0 <= i < |reg.alternatives| ==> name !in reg.alternatives[i].styles)
           ==> (forall j :: 0 <= j < |reg.alternatives| ==> name !in ls[j]);
  }

  /** Loads the named themes, in order, out of the bundle of theme documents;
      the first missing name is reported. */
  function LoadThemes(bundle: map<Name, Theme>, names: seq<Name>): (r: Result<seq<Theme>, SourceError>)
    ensures r.Ok? <==> forall i :: 0 <= i < |names| ==> names[i] in bundle
    ensures r.Ok? ==> |r.value| == |names| && forall i :: 0 <= i < |names| ==> r.value[i] == bundle[names[i]]
    ensures r.Err? ==> r.error.name !in bundle && r.error.name in names
  {
    if |names| == 0 then Ok([])
    else if names[0] !in bundle then Err(SourceNotFound(names[0]))
    else
      match LoadThemes(bundle, names[1..])
      case Err(e) => Err(e)
      case Ok(rest) =>
        assert forall i :: 1 <= i < |names| ==> names[i] == names[1..][i - 1];
        Ok([bundle[names[0]]] + rest)
  }

  /** `setAlternativeThemes:`: replaces the whole alternative list at once.
      When a name does not resolve, the error is returned and the caller keeps
      the previous registry (nothing is partly replaced). */
  function SetAlternativeThemes(reg: Registry, bundle: map<Name, Theme>, names: seq<Name>): (r: Result<Registry, SourceError>)
    ensures r.Ok? <==> forall i :: 0 <= i < |names| ==> names[i] in bundle
    ensures r.Ok? ==> r.value.default == reg.default
    ensures r.Ok? ==> |r.value.alternatives| == |names|
                      && forall i :: 0 <= i < |names| ==> r.value.alternatives[i] == bundle[names[i]]
  {
    match LoadThemes(bundle, names)
    case Err(e) => Err(e)
    case Ok(themes) => Ok(reg.(alternatives := themes))
  }

  /** With no alternative themes every key is looked up in the default theme
      alone; in particular `setAlternativeThemes:` with an empty list reverts
      every lookup to the default theme. */
  lemma NoAlternativesMeansDefault(reg: Registry, bundle: map<Name, Theme>, key: string)
    ensures reg.alternatives == [] ==> ValueForKey(reg, key) == Lookup(reg.default.values, key)
    ensures SetAlternativeThemes(reg, bundle, []).Ok?
    ensures ValueForKey(SetAlternativeThemes(reg, bundle, []).value, key) == Lookup(reg.default.values, key)
  {
  }
}

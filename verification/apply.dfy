/** Applying a style to an object (`applyStyleWithName:toObject:`) through
    the customization seam of `NSObject (ThemeManager)`: for each key path
    the object may claim custom handling; otherwise the value is set at that
    key path. */
module Apply {
  import opened Results
  import opened ThemeSource
  import opened Overrides
  import opened Styles

  /** Whether the object overrides `applyCustomizationOfThemeValue:forKeyPath:`
      with its own handler, or keeps the default one that only sets the value. */
  datatype Handler = DefaultHandler | CustomHandler

  /** A target object: its property values by key path, the key paths it
      claims through `shouldApplyThemeCustomizationForKeyPath:`, its handler,
      and the last value its custom handler received for each key path. */
  datatype Target = Target(
    properties: map<KeyPath, PlistValue>,
    claimed: set<KeyPath>,
    handler: Handler,
    delivered: map<KeyPath, PlistValue>)

  /** `shouldApplyThemeCustomizationForKeyPath:`: YES exactly for the key
      paths the object declares as custom; the category default is NO. */
  predicate ShouldApplyThemeCustomization(t: Target, keyPath: KeyPath): (custom: bool)
    ensures custom <==> keyPath in t.claimed
  {
    keyPath in t.claimed
  }

  /** An object that customizes nothing: the category's defaults. */
  function PlainObject(properties: map<KeyPath, PlistValue>): (t: Target)
    ensures forall p :: !ShouldApplyThemeCustomization(t, p)
    ensures t.handler == DefaultHandler && t.properties == properties
  {
    Target(properties, {}, DefaultHandler, map[])
  }

  /** `setValue:forKeyPath:` on the abstract object: the key path takes the
      value and every other key path keeps its own. */
  function SetValue(t: Target, value: PlistValue, keyPath: KeyPath): (r: Target)
    ensures Lookup(r.properties, keyPath) == Some(value)
    ensures forall q :: q != keyPath ==> Lookup(r.properties, q) == Lookup(t.properties, q)
    ensures r.claimed == t.claimed && r.handler == t.handler && r.delivered == t.delivered
  {
    t.(properties := t.properties[keyPath := value])
  }

  /** `applyCustomizationOfThemeValue:forKeyPath:`: the default handler only
      sets the value; an object's own handler receives the value and leaves
      the properties to itself. */
  function ApplyCustomizationOfThemeValue(t: Target, value: PlistValue, keyPath: KeyPath): (r: Target)
    ensures t.handler == DefaultHandler ==> r == SetValue(t, value, keyPath)
    ensures t.handler == CustomHandler ==> r.properties == t.properties && Lookup(r.delivered, keyPath) == Some(value)
    ensures forall q :: q != keyPath ==> Lookup(r.delivered, q) == Lookup(t.delivered, q)
    ensures r.claimed == t.claimed && r.handler == t.handler
  {
    match t.handler
    case DefaultHandler => SetValue(t, value, keyPath)
    case CustomHandler => t.(delivered := t.delivered[keyPath := value])
  }

  /** Whether applying a value at `keyPath` ends in the setter: the path is
      not claimed, or it is claimed but the handler is the default one. */
  predicate UsesSetter(t: Target, keyPath: KeyPath)
  {
    !(keyPath in t.claimed && t.handler == CustomHandler)
  }

  /** `applyThemeValue:forKeyPath:`: a claimed key path goes to the
      customization handler; any other key path is set directly. Where this
      ends in the setter the key path holds the value; where an object's
      own handler takes it, the handler receives the value and no property
      changes. */
  function ApplyThemeValue(t: Target, value: PlistValue, keyPath: KeyPath): (r: Target)
    ensures r.claimed == t.claimed && r.handler == t.handler
    ensures UsesSetter(t, keyPath) ==>
              && Lookup(r.properties, keyPath) == Some(value)
              && (forall q :: q != keyPath ==> Lookup(r.properties, q) == Lookup(t.properties, q))
              && r.delivered == t.delivered
    ensures !UsesSetter(t, keyPath) ==>
              && r.properties == t.properties
              && Lookup(r.delivered, keyPath) == Some(value)
              && (forall q :: q != keyPath ==> Lookup(r.delivered, q) == Lookup(t.delivered, q))
  {
    if ShouldApplyThemeCustomization(t, keyPath) then ApplyCustomizationOfThemeValue(t, value, keyPath)
    else SetValue(t, value, keyPath)
  }

  /** Applies every entry of a dictionary, one key path at a time, in no
      particular order (key paths are independent). */
  method ApplyEntries(t: Target, entries: map<KeyPath, PlistValue>) returns (r: Target)
    ensures r.claimed == t.claimed && r.handler == t.handler
    ensures forall p :: p in entries && UsesSetter(t, p) ==> Lookup(r.properties, p) == Some(entries[p])
    ensures forall p :: p !in entries || !UsesSetter(t, p) ==> Lookup(r.properties, p) == Lookup(t.properties, p)
    ensures forall p :: p in entries && !UsesSetter(t, p) ==> Lookup(r.delivered, p) == Some(entries[p])
    ensures forall p :: p !in entries || UsesSetter(t, p) ==> Lookup(r.delivered, p) == Lookup(t.delivered, p)
  {
    r := t;
    var todo := entries.Keys;
    while todo != {}
      invariant todo <= entries.Keys
      invariant r.claimed == t.claimed && r.handler == t.handler
      invariant forall p :: p in entries && p !in todo && UsesSetter(t, p) ==> Lookup(r.properties, p) == Some(entries[p])
      invariant forall p :: (p !in entries || p in todo || !UsesSetter(t, p)) ==> Lookup(r.properties, p) == Lookup(t.properties, p)
      invariant forall p :: p in entries && p !in todo && !UsesSetter(t, p) ==> Lookup(r.delivered, p) == Some(entries[p])
      invariant forall p :: (p !in entries || p in todo || UsesSetter(t, p)) ==> Lookup(r.delivered, p) == Lookup(t.delivered, p)
      decreases todo
    {
      var p :| p in todo;
      r := ApplyThemeValue(r, entries[p], p);
      todo := todo - {p};
    }
  }

  /** `applyStyleWithName:toObject:`: merges the style and applies each of
      its key paths to the object; a style that cannot be merged changes
      nothing and its error is returned. */
  method ApplyStyleWithName(reg: Registry, mods: Modifications, name: Name, t: Target) returns (r: Result<Target, StyleError>)
    ensures MergedValueForStyle(reg, mods, name).Err? ==> r == Err(MergedValueForStyle(reg, mods, name).error)
    ensures MergedValueForStyle(reg, mods, name).Ok? ==> r.Ok?
    ensures r.Ok? ==>
              var merged := MergedValueForStyle(reg, mods, name).value;
              && r.value.claimed == t.claimed && r.value.handler == t.handler
              && (forall p :: p in merged && UsesSetter(t, p) ==> Lookup(r.value.properties, p) == Some(merged[p]))
              && (forall p :: p !in merged || !UsesSetter(t, p) ==> Lookup(r.value.properties, p) == Lookup(t.properties, p))
              && (forall p :: p in merged && !UsesSetter(t, p) ==> Lookup(r.value.delivered, p) == Some(merged[p]))
              && (forall p :: p !in merged || UsesSetter(t, p) ==> Lookup(r.value.delivered, p) == Lookup(t.delivered, p))
  {
    match MergedValueForStyle(reg, mods, name)
    case Err(e) =>
      r := Err(e);
    case Ok(merged) =>
      var applied := ApplyEntries(t, merged);
      r := Ok(applied);
  }
}

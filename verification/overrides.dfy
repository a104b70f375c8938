/** The modification layer: constants and styles changed at run time, the
    per-style inheritance flag, and the durable snapshot written by
    `synchronizeModifies`. Modifications last for the session unless they are
    synchronized; a relaunch starts from the last synchronized snapshot. */
module Overrides {
  import opened Results
  import opened ThemeSource

  /** The live modifications: constant values, per-style key-path values, and
      the per-style inheritance flag (absent means NO). */
  datatype Modifications = Modifications(
    constants: map<Name, Value>,
    styles: map<Name, map<KeyPath, Value>>,
    inheritance: map<Name, bool>)

  const NoModifications := Modifications(map[], map[], map[])

  /** `modifiedValuesForConstant:`: the value last set for the constant, nil
      when it was never modified. */
  function ModifiedValuesForConstant(m: Modifications, constant: Name): (r: Option<Value>)
    ensures r.Some? <==> constant in m.constants
    ensures r.Some? ==> r.value == m.constants[constant]
  {
    Lookup(m.constants, constant)
  }

  /** `modifiedValueForStyle:`: the style's whole modification record, nil
      when no key path of it was modified. */
  function ModifiedValueForStyle(m: Modifications, style: Name): (r: Option<map<KeyPath, Value>>)
    ensures r.Some? <==> style in m.styles
    ensures r.Some? ==> r.value == m.styles[style]
  {
    Lookup(m.styles, style)
  }

  /** `modifiedValueForStyle:atKeyPath:`: the value last set for one key
      path of the style, nil when that key path was never modified. */
  function ModifiedValueForStyleAt(m: Modifications, style: Name, keyPath: KeyPath): (r: Option<Value>)
    ensures r.Some? <==> ModifiedValueForStyle(m, style).Some? && keyPath in ModifiedValueForStyle(m, style).value
    ensures r.Some? ==> r.value == ModifiedValueForStyle(m, style).value[keyPath]
  {
    if style in m.styles then Lookup(m.styles[style], keyPath) else None
  }

  /** `isInheritanceEnabledForStyle:`: the last flag set, NO if never set. */
  predicate IsInheritanceEnabledForStyle(m: Modifications, style: Name): (enabled: bool)
    ensures enabled ==> style in m.inheritance
    ensures style in m.inheritance ==> (enabled <==> m.inheritance[style])
  {
    style in m.inheritance && m.inheritance[style]
  }

  /** Nothing modified: every getter answers nil and every inheritance flag
      reads NO. */
  lemma NothingModifiedReadsNil(constant: Name, style: Name, keyPath: KeyPath)
    ensures ModifiedValuesForConstant(NoModifications, constant).None?
    ensures ModifiedValueForStyle(NoModifications, style).None?
    ensures ModifiedValueForStyleAt(NoModifications, style, keyPath).None?
    ensures !IsInheritanceEnabledForStyle(NoModifications, style)
  {
  }

  /** `modifyConstant:withValue:` */
  function ModifyConstant(m: Modifications, constant: Name, value: Value): (r: Modifications)
    ensures ModifiedValuesForConstant(r, constant) == Some(value)
    ensures forall c :: c != constant ==> ModifiedValuesForConstant(r, c) == ModifiedValuesForConstant(m, c)
    ensures r.styles == m.styles && r.inheritance == m.inheritance
  {
    m.(constants := m.constants[constant := value])
  }

  /** `modifyStlye:forKeyPath:withValue:`: adds or overwrites one key path of
      the style's modification record, creating the record if needed. */
  function ModifyStyle(m: Modifications, style: Name, keyPath: KeyPath, value: Value): (r: Modifications)
    ensures ModifiedValueForStyleAt(r, style, keyPath) == Some(value)
    ensures forall p :: p != keyPath ==> ModifiedValueForStyleAt(r, style, p) == ModifiedValueForStyleAt(m, style, p)
    ensures ModifiedValueForStyle(r, style).Some?
    ensures forall s :: s != style ==> ModifiedValueForStyle(r, s) == ModifiedValueForStyle(m, s)
    ensures r.constants == m.constants && r.inheritance == m.inheritance
  {
    var record := if style in m.styles then m.styles[style] else map[];
    m.(styles := m.styles[style := record[keyPath := value]])
  }

  /** `modifyStyle:inheritanceEnable:`: sets the replace-or-overlay mode of a
      style without adding any key path. */
  function ModifyStyleInheritance(m: Modifications, style: Name, enable: bool): (r: Modifications)
    ensures IsInheritanceEnabledForStyle(r, style) == enable
    ensures forall s :: s != style ==> IsInheritanceEnabledForStyle(r, s) == IsInheritanceEnabledForStyle(m, s)
    ensures r.constants == m.constants && r.styles == m.styles
  {
    m.(inheritance := m.inheritance[style := enable])
  }

  /** The manager's modification state: what the session sees, and the
      snapshot kept in durable storage. */
  datatype Store = Store(live: Modifications, saved: Modifications)

  /** A first launch: nothing modified, nothing saved. */
  const FreshInstall := Store(NoModifications, NoModifications)

  /** An application restart: the session starts again from the saved
      snapshot. */
  function Relaunch(st: Store): Store
  {
    Store(st.saved, st.saved)
  }

  /** `synchronizeModifies`: the snapshot becomes the live modifications, so
      a relaunch reproduces them exactly. */
  function SynchronizeModifies(st: Store): (r: Store)
    ensures r.live == st.live
    ensures Relaunch(r).live == st.live
  {
    st.(saved := st.live)
  }

  /** `resetModifies`: forgets every modification, in the session and in
      durable storage. */
  function ResetModifies(st: Store): (r: Store)
    ensures forall c :: ModifiedValuesForConstant(r.live, c).None?
    ensures forall s :: ModifiedValueForStyle(r.live, s).None?
    ensures forall s, p :: ModifiedValueForStyleAt(r.live, s, p).None?
    ensures forall s :: !IsInheritanceEnabledForStyle(r.live, s)
    ensures Relaunch(r).live == r.live
  {
    Store(NoModifications, NoModifications)
  }

  /** One call on the modification API. */
  datatype Edit =
    | EditConstant(constant: Name, value: Value)
    | EditStyle(style: Name, keyPath: KeyPath, value: Value)
    | EditInheritance(style: Name, enable: bool)
    | Synchronize
    | Reset

  function Perform(st: Store, e: Edit): Store
  {
    match e
    case EditConstant(c, v) => st.(live := ModifyConstant(st.live, c, v))
    case EditStyle(s, p, v) => st.(live := ModifyStyle(st.live, s, p, v))
    case EditInheritance(s, b) => st.(live := ModifyStyleInheritance(st.live, s, b))
    case Synchronize => SynchronizeModifies(st)
    case Reset => ResetModifies(st)
  }

  /** The store after a session's calls, in order. */
  function Run(st: Store, edits: seq<Edit>): Store
  {
    if |edits| == 0 then st
    else Perform(Run(st, edits[..|edits| - 1]), edits[|edits| - 1])
  }

  /** What durable storage holds after `edits`, read off the calls alone: the
      live modifications at the last `synchronizeModifies`, nothing if a
      `resetModifies` came later, and the starting snapshot if neither was
      called. */
  function LastSynchronized(st: Store, edits: seq<Edit>): Modifications
  {
    if |edits| == 0 then st.saved
    else
      var prefix := edits[..|edits| - 1];
      match edits[|edits| - 1]
      case Synchronize => Run(st, prefix).live
      case Reset => NoModifications
      case _ => LastSynchronized(st, prefix)
  }

  /** Modifications are session-only: after any sequence of calls, a relaunch
      restores exactly the last synchronized snapshot. */
  lemma {:induction false} RelaunchRestoresLastSynchronized(st: Store, edits: seq<Edit>)
    ensures Relaunch(Run(st, edits)).live == LastSynchronized(st, edits)
  {
    if |edits| > 0 {
      var prefix := edits[..|edits| - 1];
      match edits[|edits| - 1]
      case Synchronize =>
      case Reset =>
      case EditConstant(_, _) => RelaunchRestoresLastSynchronized(st, prefix);
      case EditStyle(_, _, _) => RelaunchRestoresLastSynchronized(st, prefix);
      case EditInheritance(_, _) => RelaunchRestoresLastSynchronized(st, prefix);
    }
  }

  /** On a fresh install, a session that never synchronizes leaves nothing
      behind: the next launch sees no modification. */
  lemma {:induction false} UnsynchronizedSessionIsForgotten(edits: seq<Edit>)
    requires forall i :: 0 <= i < |edits| ==> !edits[i].Synchronize?
    ensures Relaunch(Run(FreshInstall, edits)).live == NoModifications
  {
    if |edits| > 0 {
      var prefix := edits[..|edits| - 1];
      assert forall i :: 0 <= i < |prefix| ==> prefix[i] == edits[i];
      UnsynchronizedSessionIsForgotten(prefix);
    }
  }
}

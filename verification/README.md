# Giotto theme engine — a Dafny model

Giotto's `SDThemeManager` reads theme documents. There is one mandatory default
theme (`theme_default`) and an ordered list of alternative themes. From them it
answers four kinds of question:

- a plain key (`valueForKey:`);
- a named constant (`valueForConstantWithName:`);
- the merged dictionary of a named style (`mergedValueForStyle:`), flattened along
  its superstyle chain;
- applying that dictionary to an object (`applyStyleWithName:toObject:`).

Constants and styles can be modified at run time. A modified style either
replaces the themes' definition (the default) or is overlaid on it (inheritance
enabled). Modifications last for the session unless `synchronizeModifies`
persists them. `resetModifies` forgets them. When a style is applied, the
`NSObject (ThemeManager)` category decides per key path: the object may claim
custom handling, or the value is set at that key path.

The model is functional. Theme documents are maps, and a value is either a
literal or a reference to a constant (`Literal | ConstRef`). The modification
state is a record threaded through the modify, synchronize and reset calls. A
target object is an abstract map from key path to value, together with the key
paths it claims. Superstyle chains and constant reference chains are walked with
a visited set, so a repeated name is an error result rather than a loop.

Files:

- `results.dfy` (`Results`): `Option`, `Result`, map lookup.
- `theme_source.dfy` (`ThemeSource`): theme documents, the first-hit layered
  lookup, `valueForKey:`, `setAlternativeThemes:`.
- `overrides.dfy` (`Overrides`): the modification layer, its getters,
  synchronize, reset and relaunch.
- `constants.dfy` (`Constants`): constant resolution with cycle detection.
- `styles.dfy` (`Styles`): superstyle chains, merging, replace and overlay modes,
  constant resolution inside a style.
- `apply.dfy` (`Apply`): the customization seam and applying a style.
- `examples_theme.dfy` (`ThemeExamples`): a parent/child style pair and a cycle,
  worked through.

The model follows the doc comments of `SDThemeManager.h` and
`NSObject+ThemeManager.h`; where they are silent, it makes these choices:

- **Failed alternative themes.** A name passed to `setAlternativeThemes:` that
  matches no loaded theme fails the whole call with `SourceNotFound`, and the
  previous list stays in force.
- **Layered lookup.** Constants and styles are looked up with the same first-hit
  rule as plain keys. A style's definition comes whole from the first theme that
  defines it; definitions are not merged across themes.
- **Which styles a modification affects.** Only the modified style's own
  dictionary changes. Styles that inherit from it still merge from the themes'
  definitions.
- **Overlay on an undefined style.** When inheritance is enabled for a style no
  theme defines, its modified key paths are laid over an empty dictionary.
- **Reset and durable storage.** `resetModifies` also clears the synchronized
  snapshot, so a later relaunch starts with no modifications.
- **Reset and inheritance flags.** The header names only the constant and style
  modifications as what `resetModifies` clears. The model also clears the flags
  set by `modifyStyle:inheritanceEnable:`, so after a reset every style is back
  in replace mode.
- **Resolution errors.** The nil results of the source become error values:
  `ConstantNotFound`, `CircularConstantReference`, `StyleNotFound`,
  `CircularStyleReference`. A style whose constant references do not all
  resolve fails with `UnresolvedConstants`, which names every failing key path
  and its reason.

## Model

| member | source | states |
|---|---|---|
| ThemeSource.FirstHit | Giotto/Classes/SDThemeManager.h:67-72 | the answer is the value of the earliest layer defining the key, and nil exactly when no layer defines it |
| ThemeSource.ValueForKey | Giotto/Classes/SDThemeManager.h:67-85 | the earliest alternative theme (in insertion order) defining the key answers with its stored literal; if none does, the default theme's value or nil |
| ThemeSource.RawConstantIsLayered | Giotto/Classes/SDThemeManager.h:67-72 | a constant's raw value comes from the earliest alternative theme defining it, else from the default theme |
| ThemeSource.RawStyleIsLayered | Giotto/Classes/SDThemeManager.h:67-72 | a style's definition comes whole from the earliest alternative theme defining it, else from the default theme |
| ThemeSource.LoadThemes | Giotto/Classes/SDThemeManager.h:67-72 | loading named themes succeeds exactly when every name is in the bundle, keeps their order, and otherwise names a missing one |
| ThemeSource.SetAlternativeThemes | Giotto/Classes/SDThemeManager.h:67-72 | the alternative list becomes exactly the named themes in the given order, the default theme is kept, and a missing name fails the whole call |
| ThemeSource.NoAlternativesMeansDefault | Giotto/Classes/SDThemeManager.h:67-72 | with no alternatives, and after setting an empty list, every key is answered by the default theme |
| Overrides.ModifiedValuesForConstant | Giotto/Classes/SDThemeManager.h:159 | the getter answers exactly for a modified constant, with the value recorded for it; nil otherwise |
| Overrides.ModifiedValueForStyle | Giotto/Classes/SDThemeManager.h:160 | the getter answers exactly for a modified style, with its whole record of modified key paths; nil otherwise |
| Overrides.ModifiedValueForStyleAt | Giotto/Classes/SDThemeManager.h:161 | the getter answers exactly for a key path in the style's modification record, with its value there; nil otherwise |
| Overrides.IsInheritanceEnabledForStyle | Giotto/Classes/SDThemeManager.h:164-174 | YES only for a style whose flag was set, and then exactly the flag's value; NO for a style never set |
| Overrides.NothingModifiedReadsNil | Giotto/Classes/SDThemeManager.h:159-174 | with no modifications every getter answers nil and every inheritance flag reads NO |
| Overrides.ModifyConstant | Giotto/Classes/SDThemeManager.h:136-159 | the modified constant reads back the new value; every other constant's modification and all style modifications are unchanged |
| Overrides.ModifyStyle | Giotto/Classes/SDThemeManager.h:145-161 | the key path reads back the last value written; other key paths of the style and the other styles' records are unchanged |
| Overrides.ModifyStyleInheritance | Giotto/Classes/SDThemeManager.h:164-174 | the flag reads back as set; other styles' flags and all key-path modifications are unchanged |
| Overrides.SynchronizeModifies | Giotto/Classes/SDThemeManager.h:176-179 | a relaunch after synchronizing reproduces the live modifications exactly |
| Overrides.ResetModifies | Giotto/Classes/SDThemeManager.h:181-184 | afterwards every modification getter answers nil, every inheritance flag is NO, and a relaunch also sees no modification |
| Overrides.RelaunchRestoresLastSynchronized | Giotto/Classes/SDThemeManager.h:136-179 | after any sequence of calls, a relaunch restores exactly the modifications live at the last synchronize (none if a reset came later, the starting snapshot if neither happened) |
| Overrides.UnsynchronizedSessionIsForgotten | Giotto/Classes/SDThemeManager.h:136-147 | on a fresh install, a session that never synchronizes leaves no modification for the next launch |
| Constants.Candidate | Giotto/Classes/SDThemeManager.h:104-143 | a modified constant's recorded value comes first; otherwise the earliest alternative theme defining the constant answers, and failing that the default theme (nil if it does not define it either) |
| Constants.Resolve | Giotto/Classes/SDThemeManager.h:104-110 | a name already met is a cycle, an undefined name is not found, a literal is the answer |
| Constants.ValueForConstantWithName | Giotto/Classes/SDThemeManager.h:104-110 | a modified literal, else the themes' literal, is the constant's value; a constant neither defines is not found (nil) |
| Constants.ResolveValue | Giotto/Classes/SDThemeManager.h:104-110 | a literal stands for itself; a reference resolves to `x` exactly when a chain of distinct references from the named constant ends in `x` |
| Constants.ChainResolves | Giotto/Classes/SDThemeManager.h:104-110 | following a chain of distinct references that ends in a literal yields that literal |
| Constants.ResolvedChain | Giotto/Classes/SDThemeManager.h:104-110 | every successful resolution followed a chain of distinct references ending in the returned literal |
| Constants.ValueIffChain | Giotto/Classes/SDThemeManager.h:104-110 | a constant's value is `x` if and only if a chain of distinct references from it ends in `x` |
| Constants.MutualReferenceIsCircular | Giotto/Classes/SDThemeManager.h:104-110 | two constants referring to each other are reported as a circular reference |
| Constants.ModifiedConstantReadsBack | Giotto/Classes/SDThemeManager.h:136-159 | after modifying a constant to a literal, both the resolved value and the modification getter return it |
| Constants.ResolveIgnoresUnconsulted | Giotto/Classes/SDThemeManager.h:104-143 | modifying a constant that a resolution never consults leaves its outcome unchanged, failures included |
| Constants.ModifyConstantKeepsUnconsulted | Giotto/Classes/SDThemeManager.h:136-143 | every other constant keeps its value or its error, unless resolving it consults the modified name |
| Constants.DanglingReferenceUnaffected | Giotto/Classes/SDThemeManager.h:104-143 | a constant referring to an undefined name fails with not found, before and after an unrelated modification |
| Constants.ModifyConstantKeepsOthers | Giotto/Classes/SDThemeManager.h:136-143 | a constant whose reference chain avoids the modified name keeps its value |
| Styles.SuperstyleChain | Giotto/Classes/SDThemeManager.h:115-123 | a successful walk is a chain of distinct defined styles linked by their superstyles and ending at a root; a repeated name is a cycle and an undefined one is not found |
| Styles.MergeNearestFirst | Giotto/Classes/SDThemeManager.h:115-123 | the merged dictionary holds every key path some style of the chain sets, with the value of the nearest one |
| Styles.BaseMerge | Giotto/Classes/SDThemeManager.h:115-123 | the style's own key paths win over its ancestors'; a style with no superstyle yields exactly its own entries; an undefined style is not found |
| Styles.ChainIsWalked | Giotto/Classes/SDThemeManager.h:115-123 | any superstyle chain avoiding the visited names is exactly the chain the walk produces |
| Styles.MergeIffChain | Giotto/Classes/SDThemeManager.h:115-123 | a style merges exactly when it has a superstyle chain, and its dictionary is then that chain merged nearest-first |
| Styles.AncestorEntriesPreserved | Giotto/Classes/SDThemeManager.h:115-123 | ancestor key paths the style does not set keep the parent's merged value, and no other key path appears |
| Styles.MutualSuperstyleIsCircular | Giotto/Classes/SDThemeManager.h:115-123 | two styles that are each other's superstyle are reported as a circular reference |
| Styles.StyleDictionary | Giotto/Classes/SDThemeManager.h:145-174 | replace mode yields exactly the modified key paths; overlay mode yields the base merge with only the modified key paths replaced, and fails with the base merge's error when that fails; an unmodified style yields the base merge |
| Styles.ResolveEntries | Giotto/Classes/SDThemeManager.h:115-123 | resolution succeeds exactly when every entry resolves, keeps the key paths, and otherwise reports exactly the failing key paths, each with its own resolution error |
| Styles.LiteralEntriesResolve | Giotto/Classes/SDThemeManager.h:115-123 | a dictionary of literals resolves to exactly those literals, whatever the constants |
| Styles.LiteralStyleResolves | Giotto/Classes/SDThemeManager.h:115-123 | a style whose dictionary holds only literals merges to exactly those literals |
| Styles.MergedValueForStyle | Giotto/Classes/SDThemeManager.h:115-123 | the merged dictionary has the style's key paths, with literals unchanged and references replaced by their constants' values; a style that cannot be merged fails with that error, and unresolvable references fail with a report naming exactly the failing key paths and each one's error |
| Styles.PlainStyleYieldsOwnEntries | Giotto/Classes/SDThemeManager.h:115-123 | an unmodified style without a superstyle yields its own entries, resolved |
| Styles.ReplaceModeYieldsModifiedPaths | Giotto/Classes/SDThemeManager.h:145-170 | without inheritance, a modified style is exactly its modified key paths, and the last value written reads back |
| Styles.OverlayModeReplacesOnlyModifiedPaths | Giotto/Classes/SDThemeManager.h:164-174 | with inheritance enabled, the style is the base merge with only the modified key paths replaced, and the flag reads YES |
| Styles.ModifyStyleAffectsOnlyItsStyle | Giotto/Classes/SDThemeManager.h:145-171 | modifying one style, or its flag, leaves every other style's dictionary unchanged |
| Styles.ResetRestoresThemes | Giotto/Classes/SDThemeManager.h:181-184 | after a reset, constants and styles resolve exactly as with no modification at all |
| Apply.ShouldApplyThemeCustomization | Giotto/Classes/NSObject+ThemeManager.h:24-33 | YES exactly for the key paths the object declares as custom |
| Apply.PlainObject | Giotto/Classes/NSObject+ThemeManager.h:24-33 | an object that customizes nothing claims no key path |
| Apply.SetValue | Giotto/Classes/NSObject+ThemeManager.h:35-42 | setting a key path makes it hold the value, and every other key path keeps its own |
| Apply.ApplyCustomizationOfThemeValue | Giotto/Classes/NSObject+ThemeManager.h:35-42 | the default handler only sets the value; an object's own handler receives it and no property is set |
| Apply.ApplyThemeValue | Giotto/Classes/NSObject+ThemeManager.h:24-48 | where the path ends in the setter (unclaimed, or claimed by an object keeping the default handler), the key path holds the value, every other key path is unchanged and the handler receives nothing; where an object's own handler claims it, that handler receives the value and no property changes; claims and handler are unchanged |
| Apply.ApplyEntries | Giotto/Classes/SDThemeManager.h:94-101 | every key path of the dictionary is applied: set where the setter is used, delivered to the handler where it is claimed; nothing else changes |
| Apply.ApplyStyleWithName | Giotto/Classes/SDThemeManager.h:94-101 | a style that cannot be merged changes nothing and reports why; otherwise each merged key path is applied to the object, and properties and handler deliveries outside the applied key paths are unchanged |
| ThemeExamples.InheritanceExample | Giotto/Classes/SDThemeManager.h:115-123 | with `Parent = {a:1, b:2}` and `Child = {superstyle: Parent, b:3, c:4}`, `Child` merges to `{a:1, b:3, c:4}`, and `mergedValueForStyle:` returns those literals |
| ThemeExamples.ReplaceExample | Giotto/Classes/SDThemeManager.h:145-156 | modifying `Child.a` to 99 without inheritance makes `Child` exactly `{a:99}`, also after resolution |
| ThemeExamples.OverlayExample | Giotto/Classes/SDThemeManager.h:164-171 | the same modification with inheritance enabled makes `Child` `{a:99, b:3, c:4}`, also after resolution |
| ThemeExamples.CycleExample | Giotto/Classes/SDThemeManager.h:115-123 | two styles that inherit from each other fail with a circular reference, which `mergedValueForStyle:` reports |

## Left out

- The typed getters and their macros (`themeColorForKey`, `themeFontForKey:andSize:`, `themeFloatForKey`, `themeIntegerForKey`, `themeNumberForKey`; SDThemeManager.h:20-27, 32-36, 86-90). They build UIKit objects and floats, so only the untyped `valueForKey:` result is modelled. The `themeValueForKey` macro (SDThemeManager.h:29-30) only forwards to `valueForKey:`.
- Plist loading, bundle access, the `sharedManager` singleton and the C shortcuts `themeManagerSharedInstance`, `SDThemeManagerValueForConstant` and `SDThemeManagerApplyStyle` (SDThemeManager.h:38-46, 74). Themes are taken as already-loaded maps, and the shortcuts only forward to the shared instance.
- The full range of plist literals. `PlistValue` (strings, integers and string-valued dictionaries) is a placeholder domain: reals, booleans, arrays and dictionaries with non-string fields are not represented. Literals pass through the engine untouched, so no property depends on this choice.
- Nested plist dictionaries addressed by dotted key paths. A key path is one opaque string.
- The legacy Interfaces section. It is taken to be folded into the Styles section.
- Superstyle as a reserved entry. The superstyle link is a separate field of a style definition, so modifications never change a style's superstyle chain.
- The disk write behind `synchronizeModifies`, and write failures. Durable storage is an abstract snapshot field.
- Key-value coding and UIKit type coercion inside `setValue:forKeyPath:`, and the per-path failures they can raise (unknown property path, failed coercion). The target is an abstract key-path map.
- What a custom `applyCustomizationOfThemeValue:forKeyPath:` does. The model records the last value it received per key path.
- Logging (SDThemeLogger.h, the Blabber logger) and thread safety.
- Constants.ModifyConstantKeepsOthers: covers only constants that resolve to a literal along a chain avoiding the modified name. A constant that refers to the modified one changes with it, so "unchanged" cannot hold for it. Failing resolutions that never consult the modified name are covered by `Constants.ModifyConstantKeepsUnconsulted`.
- Overriding `valueForKey:` (SDThemeManager.h:53, 78-79). A theme document is split into three separate maps, so `valueForKey:` does not see the Constants and Styles sections and cannot return a whole section. Constants and styles use the same first-hit rule without going through it, so an overridden `valueForKey:` would not affect them here.

# atomic-variants, modelled in Dafny

atomic-variants composes Tailwind-style class strings from a table of
variant groups. It has four parts, and this project models each one:

- **The resolver** (`packages/core/src/index.ts`). The `atomic` factory
  fixes options (`base`, `override`, `variants`, `defaultVariants`,
  `responsiveVariants`). The resolver it returns turns a selection object
  into one class string.
  - The model is module `Atomic` (atomic.dfy). Its `Resolve` method keeps
    the source's loops and pushes onto a token list. It is proved equal to
    the specification function `ResolvedClassName`.
  - The lemmas beside it state merge precedence, iteration order, token
    order, eligibility for responsive mode and per-breakpoint expansion.
  - atomic_scenarios.dfy restates all nine configurations of the resolver's
    test suite (`packages/core/__tests__/atomic.test.ts`) as token lists, and
    for the responsive-list configuration also the resolved string.
- **The swc plugin** (`packages/swc-plugin/src/lib.rs`). It finds
  `atomic({...})` calls at build time and lists every responsive class such
  a call can produce, prefixed with every breakpoint. It records the list as
  a string-literal statement holding the "comment" `/* TAG:classes */`.
  These statements go after the imports (`apply_to_module`) or at the front
  of the module (the plugin entry point `process`).
  - swc_ast.dfy holds the slice of the swc AST that the plugin inspects.
  - swc_collector.dfy holds the collector and the module body. Both are
    classes whose methods change them in place. The enumeration is a set of
    loops, each proved against a function. swc_properties.dfy holds what is
    proved about those functions.
  - swc_scenarios.dfy restates all six of the plugin's inline tests.
- **The shared constants** (`packages/constants/index.ts`).
  - The marker regular expression `/\*\s*__atomic_generated:([^*]+)\s*\*/` is
    modelled by a matcher, `MatchAt`. It is proved equal to a declarative
    description of the accepted text, `MatchShape`, in both directions.
  - `Exec` is a leftmost-match search.
  - The output paths are constants.
  - marker_round_trip.dfy joins the plugin and the expression. The value of
    the marker string the plugin builds is read back as the class list it
    carries, the way the bundler integrations read a match: the first
    match's capture, trimmed.
- **The lock-file fixer** (`fix-comma-lock.ts`). `removeTrailingCommas`
  runs two global replacements. Each is modelled as the left-to-right scan
  of the regular expression engine. Each scan is proved equal to deleting
  exactly the commas whose next non-whitespace character is a closing
  bracket.

Two modules are shared:

- `Collections` holds `Option` and insertion-ordered entry lists. These
  stand for JavaScript objects and for the plugin's `IndexMap`, with
  `Put`/`Assign` standing for assignment and spread.
- `JsText` holds ECMAScript whitespace, `String.prototype.trim` and
  `Array.prototype.join`.

## Model

| member | source | states |
|---|---|---|
| `Atomic.Resolve` | packages/core/src/index.ts:53-104 | the resolver's loops compute exactly the reference function `ResolvedClassName`: base, the merged selection's tokens, override, className, joined, trimmed, then given to `finalize`; without `variants`, the trimmed base |
| `Atomic.PushVariants` | packages/core/src/index.ts:63-93 | the loop over the merged selection appends exactly the tokens of every entry, in merged order |
| `Atomic.PushEntry` | packages/core/src/index.ts:68-92 | one iteration: an unknown group adds nothing; a responsive object adds its breakpoint tokens; otherwise the fragment is added when it is non-empty |
| `Atomic.PushBreakpoints` | packages/core/src/index.ts:76-85 | the inner loop appends one token per breakpoint entry, in the object's order |
| `Atomic.ParamVariants` | packages/core/src/index.ts:49-57 | the rest of the argument holds exactly the entries that are not `className` and not `undefined`, and is no longer than the argument |
| `Atomic.ParamVariantsUnique` | packages/core/src/index.ts:55-57 | filtering keeps keys unique |
| `Atomic.ParamVariantsSnoc` | packages/core/src/index.ts:55-57 | filtering works entry by entry: a later entry is kept exactly when it is defined |
| `Atomic.MergedPrecedence` | packages/core/src/index.ts:63-66 | a defined call-time value for a group wins over its default; an absent or `undefined` one leaves the default |
| `Atomic.MergedKeys` | packages/core/src/index.ts:63-66 | the merged keys are the default groups, in their order, then the groups only the call names, each once, in the call's order (with unique call keys that add to no default, exactly the call's keys in order); a key is merged exactly when it is a default or a call key |
| `Atomic.NoVariantsIsTrimmedBase` | packages/core/src/index.ts:59-61 | without `variants` the result is the trimmed base, whatever the argument and the hook |
| `Atomic.FinalizeAppliedOnce` | packages/core/src/index.ts:28-30 | with `variants`, the `finalize` hook is applied exactly once, to the result the identity hook gives |
| `Atomic.ClassListOrder` | packages/core/src/index.ts:54-101 | token order: base first, then the variant tokens, then override when truthy, then className when truthy, last |
| `Atomic.UnknownGroupIgnored` | packages/core/src/index.ts:68-70 | adding a property that names no variant group (not `className`) leaves the result unchanged |
| `Atomic.MergedTokensUnknown` | packages/core/src/index.ts:63-70 | the tokens of the merged selection ignore a property that names no group |
| `Atomic.VariantTokensPutUnknown` | packages/core/src/index.ts:68-70 | assigning a group outside the table leaves the variant tokens unchanged |
| `Atomic.UnknownGroupNoTokens` | packages/core/src/index.ts:68-70 | a group outside the table contributes no token, whatever its value |
| `Atomic.Eligibility` | packages/core/src/index.ts:72-74 | a group is responsive exactly when it is in the list, or, for a non-list option, when the option is `true` |
| `Atomic.BooleanSelection` | packages/core/src/index.ts:89 | a boolean selection is looked up under `"true"`/`"false"` |
| `Atomic.ScalarSelection` | packages/core/src/index.ts:89-92 | a scalar (or a non-responsive object) gives at most one token, exactly the stored fragment when that is non-empty |
| `Atomic.IneligibleObjectDropped` | packages/core/src/index.ts:89-92 | an object on a non-responsive group is looked up as `[object Object]` and dropped |
| `Atomic.BreakpointTokensAt` | packages/core/src/index.ts:76-85 | one token per breakpoint: the fragment at `xs`, `bp:fragment` elsewhere; a missing fragment is empty at `xs` and the text `undefined` elsewhere |
| `Atomic.ResponsiveSelection` | packages/core/src/index.ts:75-87 | on a responsive group an object gives exactly its breakpoint tokens |
| `Atomic.ClassNameOfCleanTokens` | packages/core/src/index.ts:103 | when every token after base is non-empty with no whitespace at its ends, and base is empty or has no whitespace at its ends, the result is the tokens joined by single spaces and given to `finalize`; when base is the default empty string, its separator is trimmed away and the result joins the tokens after it |
| `AtomicScenarios.NoSelectionTokens` | packages/core/__tests__/atomic.test.ts:4-25 | no selection gives base and override only |
| `AtomicScenarios.OrderTokens` | packages/core/__tests__/atomic.test.ts:148-162 | base, variant, override, className, in that order |
| `AtomicScenarios.BooleanTokens` | packages/core/__tests__/atomic.test.ts:64-77 | `true`/`false` select the boolean fragments |
| `AtomicScenarios.ResponsiveTokens` | packages/core/__tests__/atomic.test.ts:79-94 | `{xs, md}` on a responsive group gives `p-1 md:p-2` |
| `AtomicScenarios.NotResponsiveTokens` | packages/core/__tests__/atomic.test.ts:134-146 | without responsive mode the object is dropped |
| `AtomicScenarios.TwoScalarTokens` | packages/core/__tests__/atomic.test.ts:27-46 | two scalar groups push `text-sm` then `text-red-500`, in selection order, between base and override |
| `AtomicScenarios.ClassNameAfterOverride` | packages/core/__tests__/atomic.test.ts:48-62 | `className` comes after `font-bold`, the override |
| `AtomicScenarios.ListedGroupTokens` | packages/core/__tests__/atomic.test.ts:96-115 | with `responsiveVariants: ["padding"]`, `padding` expands per breakpoint (`p-1`, `lg:p-2`) while `color` stays a scalar group (`text-red-500`) |
| `AtomicScenarios.ListedGroupClassName` | packages/core/__tests__/atomic.test.ts:96-115 | the resolver returns exactly `w-20 h-20 p-1 lg:p-2 text-red-500` |
| `AtomicScenarios.XsUnprefixedTokens` | packages/core/__tests__/atomic.test.ts:117-132 | the `xs` entry gives the bare `p-2` and `md` gives `md:p-4` |
| `Collections.AssignGet` | packages/core/src/index.ts:63-66 | after an object spread, a key the spread source holds (with unique keys) has the source's value |
| `Collections.Put` | packages/swc-plugin/src/lib.rs:65-70 | assignment: afterwards the key holds the new value and every other key keeps its value |
| `Collections.Assign` | packages/core/src/index.ts:63-66 | object spread: keys the source does not hold keep their value |
| `Collections.AssignKeys` | packages/core/src/index.ts:63-66 | the keys after a spread are the original keys, in place, then the source's new keys, in order of first appearance |
| `Collections.NewKeysDistinct` | packages/core/src/index.ts:63-66 | a spread adds each new key once |
| `Collections.PutKeys` | packages/swc-plugin/src/lib.rs:65-70 | inserting a key keeps insertion order: an existing key keeps its place, a new key goes last |
| `Collections.GetUnique` | packages/core/src/index.ts:63-66 | in a list with unique keys, lookup finds exactly the listed value |
| `JsText.Trim` | packages/core/src/index.ts:103 | `trim`: the result is no longer than the input and has no whitespace at either end |
| `JsText.TrimJoin` | packages/core/src/index.ts:103 | clean words joined by single spaces need no trim; an empty first word leaves only a separator, which the trim removes |
| `JsText.TrimPadded` | packages/core/src/index.ts:103 | `trim` removes exactly the surrounding whitespace of a clean string |
| `JsText.JoinClean` | packages/swc-plugin/src/lib.rs:153 | joining clean words by single spaces gives a clean string |
| `SwcCollector.CollectGroupValues` | packages/swc-plugin/src/lib.rs:53-64 | the loop over a group's object keeps exactly the string-literal values, in order |
| `SwcCollector.CollectStrings` | packages/swc-plugin/src/lib.rs:81-97 | the loop over an array keeps exactly the string-literal elements, in order (holes and spreads' non-strings skipped) |
| `SwcCollector.InsertGroups` | packages/swc-plugin/src/lib.rs:40-76 | the loop over the `variants` object inserts each identifier-keyed object group into the map |
| `SwcCollector.StepProp` | packages/swc-plugin/src/lib.rs:34-131 | one property updates the scan state exactly as `Step` says |
| `SwcCollector.ScanProps` | packages/swc-plugin/src/lib.rs:22-134 | the property loop, from the defaults (no responsive list, sizes `xs`..`2xl`), ends in `Scan(INITIAL, props)` |
| `SwcCollector.CollectClasses` | packages/swc-plugin/src/lib.rs:136-143 | the collected classes are the values of the listed groups, in list order, unknown groups skipped |
| `SwcCollector.PushRow` | packages/swc-plugin/src/lib.rs:147-149 | the inner loop appends `size:class` for every class, in order |
| `SwcCollector.PrefixAll` | packages/swc-plugin/src/lib.rs:145-150 | the nested loops produce the size-major grid of prefixed classes |
| `SwcCollector.Row` | packages/swc-plugin/src/lib.rs:147-149 | a row has one entry per class, the `j`-th being `size:class_j` |
| `SwcCollector.FirstNonImport` | packages/swc-plugin/src/lib.rs:177-181 | the index of the first non-import item, or the body's length; everything before it is an import |
| `SwcCollector.Module.Insert` | packages/swc-plugin/src/lib.rs:184 | `Vec::insert`: the item is placed at the index and the rest shifts right |
| `SwcCollector.Module.InsertAll` | packages/swc-plugin/src/lib.rs:183-185 | inserting the items in reverse at one index places them there in their own order |
| `SwcCollector.Collector.constructor` | packages/swc-plugin/src/lib.rs:211-214 | a new collector has no markers and the given tag |
| `SwcCollector.Collector.VisitCallExpr` | packages/swc-plugin/src/lib.rs:16-170 | visiting a call appends exactly that call's marker list (one marker or none) |
| `SwcCollector.Collector.VisitCalls` | packages/swc-plugin/src/lib.rs:175 | visiting the calls appends their markers in visiting order |
| `SwcCollector.Collector.ApplyToModule` | packages/swc-plugin/src/lib.rs:174-186 | the markers go, in order, right after the leading imports; the rest of the body is unchanged and the collector is drained |
| `SwcCollector.Process` | packages/swc-plugin/src/lib.rs:210-221 | the plugin entry point puts the markers, in order, at the very front of the module, under the configured or default tag |
| `SwcProperties.GroupValuesMembers` | packages/swc-plugin/src/lib.rs:54-64 | a value is collected exactly when some property of the group is a string literal with that value |
| `SwcProperties.StringElemsMembers` | packages/swc-plugin/src/lib.rs:82-96 | a string is collected exactly when some element is that string literal |
| `SwcProperties.AddGroupsIsAssign` | packages/swc-plugin/src/lib.rs:40-76 | reading the `variants` object is an ordered assignment of its group definitions |
| `SwcProperties.VariantMapKeys` | packages/swc-plugin/src/lib.rs:65-70 | the map's keys are the old keys, in order, then the group names the call adds, each once, in the order the call names them; a key is present exactly when it was before or the call names it |
| `SwcProperties.LaterGroupWins` | packages/swc-plugin/src/lib.rs:65-70 | a later definition of a group replaces an earlier one |
| `SwcProperties.ScanAppend` | packages/swc-plugin/src/lib.rs:33-134 | scanning a concatenation is scanning the parts in turn |
| `SwcProperties.ResponsiveKept` | packages/swc-plugin/src/lib.rs:78-110 | properties that do not set the responsive list leave it alone |
| `SwcProperties.AllResponsiveSeesEarlierGroups` | packages/swc-plugin/src/lib.rs:99-107 | `responsiveVariants: true` selects the groups defined before it, and only those |
| `SwcProperties.StepAllResponsive` | packages/swc-plugin/src/lib.rs:99-107 | `true` sets the responsive list to the map's keys and changes nothing else |
| `SwcProperties.StepVariants` | packages/swc-plugin/src/lib.rs:38-77 | a `variants` object adds its groups to the map |
| `SwcProperties.StepResponsiveArray` | packages/swc-plugin/src/lib.rs:80-98 | an array sets the responsive list to its string elements |
| `SwcProperties.SizesKept` | packages/swc-plugin/src/lib.rs:111-128 | properties that do not set the sizes leave them alone |
| `SwcProperties.SizesDefault` | packages/swc-plugin/src/lib.rs:23-30 | without `responsiveSizes` the sizes are `xs sm md lg xl 2xl` |
| `SwcProperties.SizesReplaced` | packages/swc-plugin/src/lib.rs:111-128 | the last `responsiveSizes` array replaces the sizes with its string elements |
| `SwcProperties.StepSizes` | packages/swc-plugin/src/lib.rs:112-127 | one `responsiveSizes` array sets the sizes to its string elements |
| `SwcProperties.UnknownGroupSkipped` | packages/swc-plugin/src/lib.rs:139 | a listed name that is not a group contributes nothing |
| `SwcProperties.CollectMembers` | packages/swc-plugin/src/lib.rs:136-143 | a class is collected exactly when it belongs to one of the listed groups |
| `SwcProperties.PrefixedAt` | packages/swc-plugin/src/lib.rs:145-150 | with `n` classes, entry `i * n + j` of the grid is `sizes[i]:classes[j]` |
| `SwcProperties.PrefixedAppend` | packages/swc-plugin/src/lib.rs:146 | the grid of concatenated size lists is the concatenation of the grids |
| `SwcProperties.PrefixedLength` | packages/swc-plugin/src/lib.rs:145-150 | the grid has one entry per (size, class) pair: the product of the two lengths |
| `SwcProperties.MarkerIff` | packages/swc-plugin/src/lib.rs:17-164 | a call records at most one marker, and records one exactly when it is `atomic({...})` with non-empty sizes and collected classes |
| `SwcProperties.NonAtomicCallIgnored` | packages/swc-plugin/src/lib.rs:17-21 | any other callee, a missing argument or a non-object first argument records nothing |
| `SwcProperties.MarkersOfAppend` | packages/swc-plugin/src/lib.rs:163 | markers of consecutive calls accumulate by concatenation |
| `SwcScenarios.CustomSizesClasses` | packages/swc-plugin/src/lib.rs:304-333 | custom sizes `sm`, `md` give `sm:bg-blue-600 md:bg-blue-600` |
| `SwcScenarios.AllVariantsTrueState` | packages/swc-plugin/src/lib.rs:265-302 | `responsiveVariants: true` after two groups selects both, with the default sizes |
| `SwcScenarios.AllVariantsTrueClasses` | packages/swc-plugin/src/lib.rs:276-285 | the collected classes are both groups' values, in order |
| `SwcScenarios.NoResponsiveNoMarker` | packages/swc-plugin/src/lib.rs:374-402 | without `responsiveVariants` no marker is recorded |
| `SwcScenarios.DefaultState` | packages/swc-plugin/src/lib.rs:226-263 | `base` is ignored; both groups are read, only `color` is responsive, the sizes are the defaults |
| `SwcScenarios.DefaultMarker` | packages/swc-plugin/src/lib.rs:226-263 | the call enumerates exactly `xs:bg-blue-500` up to `2xl:bg-blue-500`, and it yields one marker statement, whose text is the tag, a colon and those six classes joined by single spaces |
| `SwcScenarios.MultipleVariantsState` | packages/swc-plugin/src/lib.rs:335-372 | both listed groups are read and selected, with the default sizes |
| `SwcScenarios.MultipleVariantsClasses` | packages/swc-plugin/src/lib.rs:335-372 | the four classes of both groups, in order, behind each of the six default sizes: 24 entries in size-major order |
| `SwcScenarios.TwoToneMarkers` | packages/swc-plugin/src/lib.rs:404-450 | two calls one after the other record one marker each, in call order |
| `SwcScenarios.NestedCalls` | packages/swc-plugin/src/lib.rs:404-450 | after `apply_to_module`, the body is the import, the first call's marker, the second call's, then the two declarations |
| `SwcScenarios.OrangeGrid` | packages/swc-plugin/src/lib.rs:404-450 | the first call's classes are `xs:bg-orange-300` up to `2xl:bg-orange-300` |
| `SwcScenarios.SkyGrid` | packages/swc-plugin/src/lib.rs:404-450 | the second call's classes are `xs:bg-blue-300` up to `2xl:bg-blue-300` |
| `Constants.OutputFileInOutputDir` | packages/constants/index.ts:7-8 | the output file path lies in the output directory |
| `Constants.MatchAtSound` | packages/constants/index.ts:2-5 | a match the matcher reports has the accepted shape, with the capture between `TAG:` and `*/` |
| `Constants.MatchAtComplete` | packages/constants/index.ts:2-5 | text of the accepted shape is matched, with the greedy capture |
| `Constants.FirstStarMustClose` | packages/constants/index.ts:3 | when the first `*` after `TAG:` is not followed by `/`, there is no match at that opening |
| `Constants.MatchAt` | packages/constants/index.ts:2-5 | the expression tried at one position; a capture is never empty and holds no `*` (its exact meaning is `MatchAtSound` and `MatchAtComplete`) |
| `Constants.Exec` | packages/webpack-plugin/src/index.ts:33 | `exec` reports a position within the text (its meaning is `ExecLeftmost` and `ExecLeftmostShape`) |
| `Constants.ExecLeftmostShape` | packages/constants/index.ts:2-5 | `exec` finds a match exactly when the accepted shape occurs somewhere, at the leftmost such start, with the capture between `TAG:` and the closing `*` |
| `Constants.ExecLeftmost` | packages/constants/index.ts:2-5 | `exec` reports the leftmost match with its capture, or no match anywhere |
| `MarkerRoundTrip.TagsAgree` | packages/swc-plugin/src/lib.rs:200 | the plugin's default tag is the tag the expression looks for |
| `MarkerRoundTrip.ExtractReads` | packages/webpack-plugin/src/index.ts:33-35 | a consumer reads something exactly when the text holds the marker shape somewhere, and then the trimmed text between `TAG:` and `*/` of the leftmost one |
| `MarkerRoundTrip.MarkerMatchesIn` | packages/swc-plugin/src/lib.rs:158 | a default-tag marker matches where it stands, whatever surrounds it; the capture is the classes plus the written space |
| `MarkerRoundTrip.ShapeMatchesIn` | packages/constants/index.ts:2-5 | whether the expression matches at a position depends only on the text from there on |
| `MarkerRoundTrip.RoundTrip` | packages/swc-plugin/src/lib.rs:158 | a class string with no `*` and no surrounding whitespace is read back unchanged from its marker |
| `MarkerRoundTrip.CallRoundTrip` | packages/swc-plugin/src/lib.rs:152-163 | a call's enumerated classes are read back, space-separated, from the marker it records |
| `FixCommaLock.ReplaceFrom` | fix-comma-lock.ts:8 | the engine's global replacement from one position never lengthens the rest of the text (its meaning is `ReplaceIsDrop`) |
| `FixCommaLock.ReplaceIsDrop` | fix-comma-lock.ts:8 | the engine's scan deletes exactly the commas whose next non-whitespace character is a closer |
| `FixCommaLock.PassesAreDrops` | fix-comma-lock.ts:3-12 | `RemoveTrailingCommas` is two such deletions, the first for `]` and `}`, the second for `]` |
| `FixCommaLock.RemoveOnlyCommas` | fix-comma-lock.ts:3-12 | the rewrite keeps every character but commas, in order, and never grows the text |
| `FixCommaLock.UnchangedWithoutTrailingCommas` | fix-comma-lock.ts:3-12 | a text with no comma before a closer is returned unchanged |
| `FixCommaLock.DoubleCommaInArray` | fix-comma-lock.ts:8-10 | `,,]`: the first pass leaves `,]`, the second gives `]` |
| `FixCommaLock.DoubleCommaInObject` | fix-comma-lock.ts:8-10 | `,,}` becomes `,}`: only one comma goes before `}` |
| `FixCommaLock.CommaInsideString` | fix-comma-lock.ts:8 | a comma before `]` inside a string literal is removed too |

## Left out

- JavaScript `null` and number values in a selection are not modelled. Selection values are `undefined`, strings, booleans and plain objects. `typeof null == "object"` is therefore not covered.
- Own-property enumeration order of integer-like keys, and the prototype chain, are left out. `Object.entries` is modelled as insertion order over string keys.
- The variant table is a map. The resolver only looks groups and fragments up by key, so their order plays no part.
- The TypeScript types (`VariantParams`, `ClassNameProps`) are left out. They constrain callers only at compile time, and the model accepts any selection.
- `config.finalize` is a process-wide mutable hook. It is modelled as a function parameter of the resolver.
- The swc visitor framework is left out. The calls `visit_mut_with` reaches are given as an explicit list, in visiting order. `visit_mut_call_expr` does not visit its children, so calls nested inside a call are not reached; the list is expected to hold only outer calls.
- The swc AST is reduced to what the plugin inspects. Spans, raw text, computed keys and literals other than strings and booleans all fall into "other" alternatives. The spread flag of an argument is carried but not read, as in the source.
- JSON parsing of the plugin configuration (`serde_json`) is left out. The configuration is given as the optional `tag` string it yields.
- `Pass::process` for scripts (non-module programs) is left out. It does nothing to them.
- `Constants.Exec` takes its start position as a parameter. The `lastIndex` state of the global `ATOMIC_REGEX` object, shared by its callers, is not modelled.
- Consumers' file I/O, bundler hooks and the extracted-class output files are left out. So are the reading and writing of `bun.lock` in fix-comma-lock.ts:14-18.
- `Atomic.ClassNameOfCleanTokens` gives the resolved string in closed form only when base is empty or has no whitespace at its ends, and every later token is non-empty with no whitespace at its ends. A padded or whitespace-only base is trimmed by index.ts:103, so its result is not the plain join, and that case is not stated. An empty later token, such as a fragment missing from its group, leaves a doubled space inside the joined string, and a padded later token keeps its inner whitespace. Those cases are not stated either.
- The resolver scenarios state the token list; only `AtomicScenarios.ListedGroupClassName` states the joined string.
- `MarkerRoundTrip.RoundTrip` works on the value of the marker string. The printing of that string literal into the output code by swc's code generator is not modelled, and neither is its escaping of `\`, quotes and line terminators. A class name holding one of those characters is printed escaped, and the integrations then read the escaped text.
- The marker round trip is proved for the default tag, which is the only tag the fixed expression looks for. A custom plugin tag writes markers the expression does not match.
